/** The delivery key: event, address and reason group in one text, and what can be read back from it. */
module DeliveryKeys {
  import opened Base
  import opened Text
  import opened Preferences
  import opened Events
  import Timestamps

  /** The reason codes in byte order. */
  const ORDERED := [
    CI_FAILED, CI_RECOVERED, ISSUE_ASSIGNED, ISSUE_UPDATED, MENTION, MR_APPROVED,
    MR_ASSIGNED, MR_COMMENT, MR_REVIEW_REQUESTED, MR_STATE_CHANGED, MR_UPDATED
  ]

  function Selected(codes: set<string>, order: seq<string>): seq<string> {
    if order == [] then []
    else (if order[0] in codes then [order[0]] else []) + Selected(codes, order[1..])
  }

  /** The codes of a delivery in sorted order. */
  function Sorted(codes: set<string>): seq<string> {
    Selected(codes, ORDERED)
  }

  function Join(parts: seq<string>): string {
    if parts == [] then ""
    else if |parts| == 1 then parts[0]
    else parts[0] + "+" + Join(parts[1..])
  }

  function Group(codes: set<string>): string {
    Join(Sorted(codes))
  }

  function BaseKey(e: Event, group: string): string {
    if Contains(group, MENTION) && e.objectIid != "" && e.kind == MergeRequestEvent then
      "gitlab:merge_request:" + e.projectId + ":" + e.objectIid + ":mention"
    else if Contains(group, MENTION) && e.objectIid != "" && e.kind == IssueEvent then
      "gitlab:issue:" + e.projectId + ":" + e.objectIid + ":mention"
    else if e.kind == NoteEvent && e.note.Some? && e.note.value.id != "" then
      "gitlab:note:" + e.projectId + ":" + e.note.value.id
    else e.key
  }

  function DeliveryKey(e: Event, address: string, codes: set<string>): string {
    BaseKey(e, Group(codes)) + ":" + Lower(address) + ":" + Group(codes)
  }

  // Sorting

  lemma {:induction false} SelectedMembers(codes: set<string>, order: seq<string>)
    ensures forall c :: c in Selected(codes, order) <==> c in codes && c in order
  {
    if order != [] { SelectedMembers(codes, order[1..]); }
  }

  predicate Ascending(s: seq<string>) {
    forall i, j | 0 <= i < j < |s| :: Timestamps.Less(s[i], s[j])
  }

  lemma {:induction false} SelectedAscending(codes: set<string>, order: seq<string>)
    requires Ascending(order)
    ensures Ascending(Selected(codes, order))
  {
    if order != [] {
      SelectedAscending(codes, order[1..]);
      SelectedMembers(codes, order[1..]);
      var rest := Selected(codes, order[1..]);
      forall j | 0 <= j < |rest| ensures Timestamps.Less(order[0], rest[j]) {
        assert rest[j] in order[1..];
      }
    }
  }

  lemma {:induction false} LessTransitive(a: string, b: string, c: string)
    requires Timestamps.Less(a, b) && Timestamps.Less(b, c)
    ensures Timestamps.Less(a, c)
  {
    if a != "" && a[0] == b[0] == c[0] { LessTransitive(a[1..], b[1..], c[1..]); }
  }

  lemma LessAfter(prefix: string, x: string, y: string)
    requires y != "" && (x == "" || x[0] < y[0])
    ensures Timestamps.Less(prefix + x, prefix + y)
  {
    Timestamps.LessConcat(prefix, prefix, x, y);
  }

  lemma AscendingWith(c: string, s: seq<string>)
    requires s != [] && Timestamps.Less(c, s[0]) && Ascending(s)
    ensures Ascending([c] + s)
  {
    forall j | 0 <= j < |s| ensures Timestamps.Less(c, s[j]) {
      if j > 0 { LessTransitive(c, s[0], s[j]); }
    }
  }

  /** The texts agree on the first n characters and then differ upwards. */
  lemma LessAt(x: string, y: string, n: nat)
    requires n < |x| && n < |y| && x[..n] == y[..n] && x[n] < y[n]
    ensures Timestamps.Less(x, y)
  {
    LessAfter(x[..n], x[n..], y[n..]);
    assert x[..n] + x[n..] == x && y[..n] + y[n..] == y;
  }

  lemma FirstNeighbours()
    ensures Timestamps.Less(CI_FAILED, CI_RECOVERED)
    ensures Timestamps.Less(CI_RECOVERED, ISSUE_ASSIGNED)
    ensures Timestamps.Less(ISSUE_ASSIGNED, ISSUE_UPDATED)
    ensures Timestamps.Less(ISSUE_UPDATED, MENTION)
  {
    LessAt(CI_FAILED, CI_RECOVERED, 3);
    LessAt(CI_RECOVERED, ISSUE_ASSIGNED, 0);
    LessAt(ISSUE_ASSIGNED, ISSUE_UPDATED, 6);
    LessAt(ISSUE_UPDATED, MENTION, 0);
  }

  lemma MiddleNeighbours()
    ensures Timestamps.Less(MENTION, MR_APPROVED)
    ensures Timestamps.Less(MR_APPROVED, MR_ASSIGNED)
    ensures Timestamps.Less(MR_ASSIGNED, MR_COMMENT)
  {
    LessAt(MENTION, MR_APPROVED, 1);
    LessAt(MR_APPROVED, MR_ASSIGNED, 4);
    LessAt(MR_ASSIGNED, MR_COMMENT, 3);
  }

  lemma LastNeighbours()
    ensures Timestamps.Less(MR_COMMENT, MR_REVIEW_REQUESTED)
    ensures Timestamps.Less(MR_REVIEW_REQUESTED, MR_STATE_CHANGED)
    ensures Timestamps.Less(MR_STATE_CHANGED, MR_UPDATED)
  {
    LessAt(MR_COMMENT, MR_REVIEW_REQUESTED, 3);
    LessAt(MR_REVIEW_REQUESTED, MR_STATE_CHANGED, 3);
    LessAt(MR_STATE_CHANGED, MR_UPDATED, 3);
  }

  lemma LastAscending() returns (s: seq<string>)
    ensures s == [MR_COMMENT, MR_REVIEW_REQUESTED, MR_STATE_CHANGED, MR_UPDATED] && Ascending(s)
  {
    LastNeighbours();
    s := [MR_UPDATED];
    AscendingWith(MR_STATE_CHANGED, s);
    s := [MR_STATE_CHANGED] + s;
    AscendingWith(MR_REVIEW_REQUESTED, s);
    s := [MR_REVIEW_REQUESTED] + s;
    AscendingWith(MR_COMMENT, s);
    s := [MR_COMMENT] + s;
  }

  lemma MiddleAscending() returns (s: seq<string>)
    ensures |s| == 7 && s[..3] == [MENTION, MR_APPROVED, MR_ASSIGNED]
    ensures s[3..] == [MR_COMMENT, MR_REVIEW_REQUESTED, MR_STATE_CHANGED, MR_UPDATED] && Ascending(s)
  {
    MiddleNeighbours();
    s := LastAscending();
    AscendingWith(MR_ASSIGNED, s);
    s := [MR_ASSIGNED] + s;
    AscendingWith(MR_APPROVED, s);
    s := [MR_APPROVED] + s;
    AscendingWith(MENTION, s);
    s := [MENTION] + s;
  }

  lemma TwoBefore(a: string, b: string, rest: seq<string>)
    requires rest != [] && Timestamps.Less(a, b) && Timestamps.Less(b, rest[0]) && Ascending(rest)
    ensures Ascending([a, b] + rest)
  {
    AscendingWith(b, rest);
    AscendingWith(a, [b] + rest);
    assert [a] + ([b] + rest) == [a, b] + rest;
  }

  lemma FirstAscending(rest: seq<string>)
    requires rest != [] && rest[0] == MENTION && Ascending(rest)
    ensures Ascending([CI_FAILED, CI_RECOVERED] + ([ISSUE_ASSIGNED, ISSUE_UPDATED] + rest))
  {
    FirstNeighbours();
    TwoBefore(ISSUE_ASSIGNED, ISSUE_UPDATED, rest);
    TwoBefore(CI_FAILED, CI_RECOVERED, [ISSUE_ASSIGNED, ISSUE_UPDATED] + rest);
  }

  lemma OrderedAscending()
    ensures Ascending(ORDERED)
  {
    var s := MiddleAscending();
    assert s[0] == s[..3][0];
    FirstAscending(s);
    assert s == s[..3] + s[3..];
    assert ORDERED == [CI_FAILED, CI_RECOVERED] + ([ISSUE_ASSIGNED, ISSUE_UPDATED] + s);
  }

  /** Sorting a set of reason codes: exactly its codes, in strictly ascending byte order. */
  lemma SortedIsSorted(codes: set<string>)
    requires codes <= CODES
    ensures Ascending(Sorted(codes))
    ensures forall c :: c in Sorted(codes) <==> c in codes
  {
    OrderedAscending();
    SelectedAscending(codes, ORDERED);
    SelectedMembers(codes, ORDERED);
  }

  // Reading a key back

  lemma SplitLast(a: string, b: string, x: string, y: string)
    requires ':' !in x && ':' !in y && a + ":" + x == b + ":" + y
    ensures a == b && x == y
  {
    var s, t := a + ":" + x, b + ":" + y;
    assert s[|a|] == ':' && t[|b|] == ':';
    assert forall i | |a| < i < |s| :: s[i] == x[i - |a| - 1];
    assert forall i | |b| < i < |t| :: t[i] == y[i - |b| - 1];
    assert a == s[..|a|] && b == t[..|b|] && x == s[|a| + 1..] && y == t[|b| + 1..];
  }

  predicate Plain(parts: seq<string>) {
    forall p | p in parts :: p != "" && '+' !in p && ':' !in p
  }

  lemma {:induction false} JoinPlain(parts: seq<string>)
    requires Plain(parts)
    ensures ':' !in Join(parts)
    ensures Join(parts) == "" <==> parts == []
    ensures '+' in Join(parts) <==> |parts| > 1
  {
    if |parts| > 1 {
      assert forall p | p in parts[1..] :: p in parts;
      JoinPlain(parts[1..]);
    } else if |parts| == 1 {
      assert parts[0] in parts;
    }
  }

  lemma {:induction false} JoinInjective(p: seq<string>, q: seq<string>)
    requires Plain(p) && Plain(q) && Join(p) == Join(q)
    ensures p == q
  {
    JoinPlain(p);
    JoinPlain(q);
    if |p| > 1 {
      SplitFirst(p[0], q[0], Join(p[1..]), Join(q[1..]), '+');
      JoinInjective(p[1..], q[1..]);
      assert p == [p[0]] + p[1..] && q == [q[0]] + q[1..];
    }
  }

  /** Lower-case letters and underscores only. */
  predicate PlainText(p: string) {
    p != "" && forall ch | ch in p :: ch == '_' || 'a' <= ch <= 'z'
  }

  lemma FirstCodesPlain()
    ensures PlainText(CI_FAILED) && PlainText(CI_RECOVERED) && PlainText(ISSUE_ASSIGNED)
    ensures PlainText(ISSUE_UPDATED) && PlainText(MENTION) && PlainText(MR_APPROVED)
  {}

  lemma LastCodesPlain()
    ensures PlainText(MR_ASSIGNED) && PlainText(MR_COMMENT) && PlainText(MR_REVIEW_REQUESTED)
    ensures PlainText(MR_STATE_CHANGED) && PlainText(MR_UPDATED)
  {}

  lemma CodesPlain()
    ensures forall p | p in ORDERED :: PlainText(p)
  {
    FirstCodesPlain();
    LastCodesPlain();
  }

  lemma SortedPlain(codes: set<string>)
    ensures Plain(Sorted(codes))
  {
    SelectedMembers(codes, ORDERED);
    CodesPlain();
  }

  lemma GroupInjective(codes: set<string>, codes': set<string>)
    requires codes <= CODES && codes' <= CODES && Group(codes) == Group(codes')
    ensures codes == codes'
  {
    SortedPlain(codes);
    SortedPlain(codes');
    JoinInjective(Sorted(codes), Sorted(codes'));
    SortedIsSorted(codes);
    SortedIsSorted(codes');
  }

  /** Base, address and reason codes can be read back from a key when the address has no colon. */
  lemma KeyDecodes(e: Event, address: string, codes: set<string>, e': Event, address': string, codes': set<string>)
    requires codes <= CODES && codes' <= CODES && ':' !in Lower(address) && ':' !in Lower(address')
    requires DeliveryKey(e, address, codes) == DeliveryKey(e', address', codes')
    ensures Lower(address) == Lower(address') && codes == codes'
    ensures BaseKey(e, Group(codes)) == BaseKey(e', Group(codes'))
  {
    SortedPlain(codes);
    SortedPlain(codes');
    JoinPlain(Sorted(codes));
    JoinPlain(Sorted(codes'));
    var b, b' := BaseKey(e, Group(codes)), BaseKey(e', Group(codes'));
    SplitLast(b + ":" + Lower(address), b' + ":" + Lower(address'), Group(codes), Group(codes'));
    SplitLast(b, b', Lower(address), Lower(address'));
    GroupInjective(codes, codes');
  }

  // The mention test

  lemma {:induction false} JoinContains(parts: seq<string>, word: string)
    requires word != "" && '+' !in word
    ensures Contains(Join(parts), word) <==> exists p | p in parts :: Contains(p, word)
  {
    if |parts| == 1 {
      assert forall p | p in parts :: p == parts[0];
      assert parts[0] in parts;
    } else if |parts| > 1 {
      JoinContains(parts[1..], word);
      PlusContains(parts[0], Join(parts[1..]), word);
      assert forall p :: p in parts <==> p == parts[0] || p in parts[1..];
    }
  }

  lemma PlusContains(a: string, b: string, word: string)
    requires word != "" && '+' !in word
    ensures Contains(a + "+" + b, word) <==> Contains(a, word) || Contains(b, word)
  {
    var s := a + "+" + b;
    if i :| PartAt(s, word, i) {
      assert s[|a|] == '+';
      assert forall j | 0 <= j < |word| :: word[j] == s[i + j];
      if i + |word| <= |a| {
        assert PartAt(a, word, i);
      } else {
        assert b == s[|a| + 1..];
        assert PartAt(b, word, i - |a| - 1);
      }
    }
    if i :| PartAt(a, word, i) {
      assert PartAt(s, word, i);
    }
    if i :| PartAt(b, word, i) {
      assert s[|a| + 1..] == b;
      assert PartAt(s, word, i + |a| + 1);
    }
  }

  lemma MentionShape(s: string)
    requires Contains(s, MENTION)
    ensures exists i | 0 <= i < |s| - 4 :: s[i] == 'm' && s[i + 4] == 'i'
  {
    var i :| 0 <= i <= |s| - |MENTION| && PartAt(s, MENTION, i);
    var word := s[i..i + |MENTION|];
    assert word[0] == s[i] && word[4] == s[i + 4];
  }

  lemma OnlyMentionHoldsTheWord(code: string)
    requires code in CODES
    ensures Contains(code, MENTION) <==> code == MENTION
  {
    if code == MENTION {
      assert PartAt(MENTION, MENTION, 0);
    } else if Contains(code, MENTION) {
      MentionShape(code);
    }
  }

  /** The substring test on the joined group is the membership test it stands for. */
  lemma MentionTest(codes: set<string>)
    requires codes <= CODES
    ensures Contains(Group(codes), MENTION) <==> MENTION in codes
  {
    SortedIsSorted(codes);
    JoinContains(Sorted(codes), MENTION);
    forall c | c in codes ensures Contains(c, MENTION) <==> c == MENTION {
      OnlyMentionHoldsTheWord(c);
    }
  }

  function MentionBase(kind: Kind, project: string, iid: string): string
    requires kind in {MergeRequestEvent, IssueEvent}
  {
    (if kind == MergeRequestEvent then "gitlab:merge_request:" else "gitlab:issue:") + project + ":" + iid + ":mention"
  }

  lemma MentionBaseInjective(kind: Kind, project: string, iid: string, kind': Kind, project': string, iid': string)
    requires kind in {MergeRequestEvent, IssueEvent} && kind' in {MergeRequestEvent, IssueEvent}
    requires ':' !in project && ':' !in iid && ':' !in project' && ':' !in iid'
    requires MentionBase(kind, project, iid) == MentionBase(kind', project', iid')
    ensures kind == kind' && project == project' && iid == iid'
  {
    var b, b' := MentionBase(kind, project, iid), MentionBase(kind', project', iid');
    assert b[7] == (if kind == MergeRequestEvent then 'm' else 'i');
    assert b'[7] == (if kind' == MergeRequestEvent then 'm' else 'i');
    var head := if kind == MergeRequestEvent then "gitlab:merge_request:" else "gitlab:issue:";
    assert b == head + project + ":" + iid + ":" + "mention" && b' == head + project' + ":" + iid' + ":" + "mention";
    SplitLast(head + project + ":" + iid, head + project' + ":" + iid', "mention", "mention");
    SplitLast(head + project, head + project', iid, iid');
    assert (head + project)[|head|..] == project && (head + project')[|head|..] == project';
  }

  lemma MentionBaseOf(e: Event, codes: set<string>)
    requires codes <= CODES && MENTION in codes && e.kind in {MergeRequestEvent, IssueEvent} && e.objectIid != ""
    ensures BaseKey(e, Group(codes)) == MentionBase(e.kind, e.projectId, e.objectIid)
  {
    MentionTest(codes);
  }

  /** One row per project, merge request or issue, address and mention-bearing group, whatever the
      event keys are: two such deliveries have the same key exactly when these agree. */
  lemma MentionKeysExactly(e: Event, address: string, codes: set<string>, e': Event, address': string, codes': set<string>)
    requires codes <= CODES && codes' <= CODES && MENTION in codes && MENTION in codes'
    requires ':' !in Lower(address) && ':' !in Lower(address')
    requires e.kind in {MergeRequestEvent, IssueEvent} && e.objectIid != "" && ':' !in e.projectId && ':' !in e.objectIid
    requires e'.kind in {MergeRequestEvent, IssueEvent} && e'.objectIid != "" && ':' !in e'.projectId && ':' !in e'.objectIid
    ensures DeliveryKey(e, address, codes) == DeliveryKey(e', address', codes')
            <==> e.kind == e'.kind && e.projectId == e'.projectId && e.objectIid == e'.objectIid
                 && Lower(address) == Lower(address') && codes == codes'
  {
    MentionBaseOf(e, codes);
    MentionBaseOf(e', codes');
    if DeliveryKey(e, address, codes) == DeliveryKey(e', address', codes') {
      KeyDecodes(e, address, codes, e', address', codes');
      MentionBaseInjective(e.kind, e.projectId, e.objectIid, e'.kind, e'.projectId, e'.objectIid);
    }
  }

  /** One row per note, address and group. */
  lemma NoteKeysExactly(e: Event, address: string, codes: set<string>, e': Event, address': string, codes': set<string>)
    requires codes <= CODES && codes' <= CODES && ':' !in Lower(address) && ':' !in Lower(address')
    requires e.kind == e'.kind == NoteEvent && e.note.Some? && e.note.value.id != "" && e'.note.Some? && e'.note.value.id != ""
    requires ':' !in e.note.value.id && ':' !in e'.note.value.id
    ensures DeliveryKey(e, address, codes) == DeliveryKey(e', address', codes')
            <==> e.projectId == e'.projectId && e.note.value.id == e'.note.value.id
                 && Lower(address) == Lower(address') && codes == codes'
  {
    if DeliveryKey(e, address, codes) == DeliveryKey(e', address', codes') {
      KeyDecodes(e, address, codes, e', address', codes');
      var head := "gitlab:note:";
      var b, b' := BaseKey(e, Group(codes)), BaseKey(e', Group(codes'));
      SplitLast(head + e.projectId, head + e'.projectId, e.note.value.id, e'.note.value.id);
      assert (head + e.projectId)[|head|..] == e.projectId && (head + e'.projectId)[|head|..] == e'.projectId;
    }
  }

  /** Any other delivery starts from its event key. */
  predicate OfItsEvent(e: Event, codes: set<string>) {
    && !(MENTION in codes && e.kind in {MergeRequestEvent, IssueEvent} && e.objectIid != "")
    && !(e.kind == NoteEvent && e.note.Some? && e.note.value.id != "")
  }

  /** One row per event, address and group: two such deliveries have the same key exactly when these agree. */
  lemma EventKeysExactly(e: Event, address: string, codes: set<string>, e': Event, address': string, codes': set<string>)
    requires codes <= CODES && codes' <= CODES && ':' !in Lower(address) && ':' !in Lower(address')
    requires OfItsEvent(e, codes) && OfItsEvent(e', codes')
    ensures DeliveryKey(e, address, codes) == DeliveryKey(e', address', codes')
            <==> e.key == e'.key && Lower(address) == Lower(address') && codes == codes'
  {
    MentionTest(codes);
    MentionTest(codes');
    if DeliveryKey(e, address, codes) == DeliveryKey(e', address', codes') {
      KeyDecodes(e, address, codes, e', address', codes');
    }
  }

  lemma {:induction false} NoneSelected(codes: set<string>, order: seq<string>)
    requires forall c | c in order :: c !in codes
    ensures Selected(codes, order) == []
  {
    if order != [] { NoneSelected(codes, order[1..]); }
  }

  /** The substring test that picks out the failure notices of a failed pipeline never drops one. */
  lemma FailureKeyMatches(e: Event, address: string)
    ensures Contains(DeliveryKey(e, address, {CI_FAILED}), CI_FAILED)
  {
    assert Sorted({CI_FAILED}) == [CI_FAILED] by {
      assert ORDERED[0] == CI_FAILED;
      NoneSelected({CI_FAILED}, ORDERED[1..]);
    }
    var key := DeliveryKey(e, address, {CI_FAILED});
    var head := BaseKey(e, CI_FAILED) + ":" + Lower(address) + ":";
    assert key == head + CI_FAILED;
    assert PartAt(key, CI_FAILED, |head|);
  }
}
