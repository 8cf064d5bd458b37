/** Handling one webhook: remember who it names, route it, and store what the router decided. */
module Ingest {
  import opened Base
  import opened Text
  import opened Addresses
  import opened Events
  import opened Routing
  import opened History
  import opened DeliveryKeys
  import opened Preferences
  import Identities
  import Outbox

  /** What decoding and enriching a request gave. */
  datatype Decoded = Decoded(event: Event) | IgnoredRequest | Malformed

  datatype Outcome = Stored(deliveries: nat, unresolved: nat) | Ignored

  datatype IngestError = NotDecoded | NotRouted(error: RouteError)

  function OptionalOne(i: Option<Identity>): seq<Identity> {
    if i.Some? then [i.value] else []
  }

  function OfMergeRequest(mr: Option<MergeRequest>): seq<Identity> {
    if mr.Some? then [mr.value.author] + mr.value.reviewers + mr.value.assignees else []
  }

  function OfIssue(issue: Option<Issue>): seq<Identity> {
    if issue.Some? then [issue.value.author] + issue.value.assignees else []
  }

  /** Everyone an event names, in the order they are remembered. */
  function EventIdentities(e: Event): seq<Identity> {
    [e.actor] + OptionalOne(e.author) + e.reviewers + e.assignees + e.mentions
    + (if e.pipeline.Some? then [e.pipeline.value.commitAuthor] else [])
    + OfMergeRequest(e.mergeRequest)
    + (if e.note.Some? then OfMergeRequest(e.note.value.mergeRequest) + OfIssue(e.note.value.issue) else [])
    + OfIssue(e.issue)
  }

  /** Everyone an event names is among them, and no one else. */
  lemma EventIdentitiesExactly(e: Event, i: Identity)
    ensures i in EventIdentities(e) <==>
              || i == e.actor || e.author == Some(i) || i in e.reviewers || i in e.assignees || i in e.mentions
              || (e.pipeline.Some? && i == e.pipeline.value.commitAuthor)
              || (e.mergeRequest.Some? && InMergeRequest(e.mergeRequest.value, i))
              || (e.note.Some? && e.note.value.mergeRequest.Some? && InMergeRequest(e.note.value.mergeRequest.value, i))
              || (e.note.Some? && e.note.value.issue.Some? && InIssue(e.note.value.issue.value, i))
              || (e.issue.Some? && InIssue(e.issue.value, i))
  {}

  predicate InMergeRequest(mr: MergeRequest, i: Identity) {
    i == mr.author || i in mr.reviewers || i in mr.assignees
  }

  predicate InIssue(issue: Issue, i: Identity) {
    i == issue.author || i in issue.assignees
  }

  predicate WorthKeeping(i: Identity) {
    (i.id != "" || i.username != "") && i.email != ""
  }

  function WithSource(i: Identity, source: string): Identity {
    if i.provider == "" then i.(provider := source) else i
  }

  /** One attempt to remember an identity: it is stored, enabled, unless it is not worth keeping, has no
      usable email or conflicts. */
  ghost predicate Attempt(syntax: Syntax, rows: Identities.Rows, rows': Identities.Rows, i: Identity, source: string, stamp: int) {
    var named := WithSource(i, source);
    if !WorthKeeping(i) || UsableEmail(syntax, i.email) == "" then rows' == rows
    else
      || (rows' == rows && Identities.Conflicts(rows, named.provider, named))
      || exists row :: Identities.Accepts(syntax, rows, rows', row, named.provider, named, true, stamp)
  }

  /** What an attempt leaves behind: nothing new for someone without an id and a username, without an e-mail
      or without a usable one; for everyone else who does not conflict, an enabled row with their id, username
      and normalised e-mail, under the source of the event when they name no provider. */
  lemma AttemptExactly(syntax: Syntax, rows: Identities.Rows, rows': Identities.Rows, i: Identity, source: string, stamp: int)
    requires Attempt(syntax, rows, rows', i, source, stamp)
    ensures (i.id == "" && i.username == "") || i.email == "" || UsableEmail(syntax, i.email) == "" ==> rows' == rows
    ensures (i.id != "" || i.username != "") && i.email != "" && UsableEmail(syntax, i.email) != ""
            && !Identities.Conflicts(rows, if i.provider == "" then source else i.provider, i) ==>
              exists row :: row in rows' && rows'[row] ==
                Identities.Row(if i.provider == "" then source else i.provider, i.id, Lower(Trim(i.username)), Normal(i.email), i.name, true, stamp)
  {
    var named := WithSource(i, source);
    assert Identities.Conflicts(rows, named.provider, named) <==> Identities.Conflicts(rows, named.provider, i) by {
      assert forall byId, byUsername ::
        Identities.FindsId(rows, named.provider, named.id, byId) && Identities.FindsUsername(rows, named.provider, Lower(Trim(named.username)), byUsername)
        <==> Identities.FindsId(rows, named.provider, i.id, byId) && Identities.FindsUsername(rows, named.provider, Lower(Trim(i.username)), byUsername);
    }
    if WorthKeeping(i) && UsableEmail(syntax, i.email) != "" && !Identities.Conflicts(rows, named.provider, i) {
      var row :| Identities.Accepts(syntax, rows, rows', row, named.provider, named, true, stamp);
      assert row in rows';
    }
  }

  /** The table along the attempts, one entry more than there are identities. */
  ghost predicate Attempts(syntax: Syntax, trail: seq<Identities.Rows>, people: seq<Identity>, source: string, stamp: int) {
    && |trail| == |people| + 1
    && forall n | 0 <= n < |people| :: Attempt(syntax, trail[n], trail[n + 1], people[n], source, stamp)
  }

  /** Remembering i leaves this provider id alone, judging by the table: i has another id, or no id and a
      username that no enabled row of this id carries. */
  ghost predicate Spares(rows: Identities.Rows, i: Identity, source: string, provider: string, id: string) {
    var named := WithSource(i, source);
    if i.id != "" then named.provider != provider || i.id != id
    else named.provider != provider
         || forall row: nat | Identities.AnswersId(rows, row, provider, id) ::
              rows[row].username == "" || rows[row].username != Lower(Trim(i.username))
  }

  /** The rows that answer for a provider id are the same ones. */
  ghost predicate SameAnswer(rows: Identities.Rows, rows': Identities.Rows, provider: string, id: string) {
    forall row: nat ::
      && (Identities.AnswersId(rows', row, provider, id) <==> Identities.AnswersId(rows, row, provider, id))
      && (Identities.AnswersId(rows, row, provider, id) ==> rows'[row] == rows[row])
  }

  lemma AttemptSpares(syntax: Syntax, rows: Identities.Rows, rows': Identities.Rows, i: Identity, source: string, stamp: int, provider: string, id: string)
    requires Attempt(syntax, rows, rows', i, source, stamp) && Identities.Unique(rows)
    requires id != "" && (WorthKeeping(i) ==> Spares(rows, i, source, provider, id))
    ensures Identities.Unique(rows') && SameAnswer(rows, rows', provider, id)
  {
    if rows' != rows {
      var named := WithSource(i, source);
      var row :| Identities.Accepts(syntax, rows, rows', row, named.provider, named, true, stamp);
      Identities.AcceptedKeepsUnique(syntax, rows, rows', row, named.provider, named, true, stamp);
      Identities.AcceptedSameProvider(syntax, rows, rows', row, named.provider, named, true, stamp);
      assert !Identities.AnswersId(rows, row, provider, id);
    }
  }

  lemma SameLookup(rows: Identities.Rows, rows': Identities.Rows, provider: string, id: string)
    requires Identities.Unique(rows) && Identities.Unique(rows') && id != "" && SameAnswer(rows, rows', provider, id)
    ensures Identities.LookupId(rows', provider, id) == Identities.LookupId(rows, provider, id)
  {
    if row: nat :| Identities.AnswersId(rows, row, provider, id) {
      Identities.LookupIdUnique(rows, row, provider, id);
      Identities.LookupIdUnique(rows', row, provider, id);
    }
  }

  lemma {:induction false} TrailSpares(syntax: Syntax, trail: seq<Identities.Rows>, people: seq<Identity>, source: string, stamp: int, n: nat, provider: string, id: string)
    requires Attempts(syntax, trail, people, source, stamp) && Identities.Unique(trail[0]) && n <= |people|
    requires id != "" && forall i | i in people && WorthKeeping(i) :: Spares(trail[0], i, source, provider, id)
    ensures Identities.Unique(trail[n]) && SameAnswer(trail[0], trail[n], provider, id)
  {
    if n > 0 {
      TrailSpares(syntax, trail, people, source, stamp, n - 1, provider, id);
      AttemptSpares(syntax, trail[n - 1], trail[n], people[n - 1], source, stamp, provider, id);
    }
  }

  lemma {:induction false} TrailUnique(syntax: Syntax, trail: seq<Identities.Rows>, people: seq<Identity>, source: string, stamp: int, n: nat)
    requires Attempts(syntax, trail, people, source, stamp) && Identities.Unique(trail[0]) && n <= |people|
    ensures Identities.Unique(trail[n])
  {
    if n > 0 {
      TrailUnique(syntax, trail, people, source, stamp, n - 1);
      var named := WithSource(people[n - 1], source);
      if trail[n] != trail[n - 1] {
        var row :| Identities.Accepts(syntax, trail[n - 1], trail[n], row, named.provider, named, true, stamp);
        Identities.AcceptedKeepsUnique(syntax, trail[n - 1], trail[n], row, named.provider, named, true, stamp);
      }
    }
  }

  /** Remembering the people of an event keeps the indexes, and a provider id resolves as before unless
      the event names it, or names without an id the username its row carries. */
  lemma AttemptsKeep(syntax: Syntax, trail: seq<Identities.Rows>, people: seq<Identity>, source: string, stamp: int)
    requires Attempts(syntax, trail, people, source, stamp) && Identities.Unique(trail[0])
    ensures Identities.Unique(trail[|people|])
    ensures forall provider, id | id != "" && (forall i | i in people && WorthKeeping(i) :: Spares(trail[0], i, source, provider, id)) ::
              Identities.LookupId(trail[|people|], provider, id) == Identities.LookupId(trail[0], provider, id)
  {
    TrailUnique(syntax, trail, people, source, stamp, |people|);
    forall provider, id | id != "" && (forall i | i in people && WorthKeeping(i) :: Spares(trail[0], i, source, provider, id))
      ensures Identities.LookupId(trail[|people|], provider, id) == Identities.LookupId(trail[0], provider, id)
    {
      TrailSpares(syntax, trail, people, source, stamp, |people|, provider, id);
      SameLookup(trail[0], trail[|people|], provider, id);
    }
  }

  // What a history stores

  /** The rows a history puts into an empty outbox. */
  function StoredRows(turns: Turns): Outbox.Rows {
    if turns == [] then map[]
    else
      var last := turns[|turns| - 1];
      Outbox.InsertAll(StoredRows(turns[..|turns| - 1]), Deliveries(last.notices), Outbox.Stamp(last.world.now))
  }

  /** What a notice is about: what its key depends on, with the event key only where nothing else does. */
  datatype Subject =
    | OfMention(kind: Kind, projectId: string, iid: string, address: string, codes: set<string>)
    | OfNote(projectId: string, noteId: string, address: string, codes: set<string>)
    | OfEvent(eventKey: string, address: string, codes: set<string>)

  function SubjectOf(e: Event, n: Notice): Subject {
    if MENTION in n.codes && e.kind in {MergeRequestEvent, IssueEvent} && e.objectIid != "" then
      OfMention(e.kind, e.projectId, e.objectIid, n.address, n.codes)
    else if e.kind == NoteEvent && e.note.Some? && e.note.value.id != "" then
      OfNote(e.projectId, e.note.value.id, n.address, n.codes)
    else OfEvent(e.key, n.address, n.codes)
  }

  lemma SubjectGivesKey(w: World, e: Event, notices: seq<Notice>, n: Notice, w': World, e': Event, notices': seq<Notice>, n': Notice)
    requires Routes(w, e, notices) && n in notices && Routes(w', e', notices') && n' in notices'
    requires SubjectOf(e, n) == SubjectOf(e', n')
    ensures n.key == n'.key
  {
    ToldCodes(w, e, notices);
    MentionTest(n.codes);
    if SubjectOf(e, n).OfMention? {
      MentionBaseOf(e, n.codes);
      MentionBaseOf(e', n.codes);
    }
  }

  /** Nothing in the event or the address holds the separator of the key. */
  predicate ColonFree(e: Event, n: Notice) {
    ':' !in n.address && ':' !in e.projectId && ':' !in e.objectIid && (e.note.Some? ==> ':' !in e.note.value.id)
  }

  predicate SameKind(a: Subject, b: Subject) {
    match a
    case OfMention(_, _, _, _, _) => b.OfMention?
    case OfNote(_, _, _, _) => b.OfNote?
    case OfEvent(_, _, _) => b.OfEvent?
  }

  /** Among notices about the same kind of subject, the key tells the subjects apart, exactly. */
  lemma SubjectsExactly(w: World, e: Event, notices: seq<Notice>, n: Notice, w': World, e': Event, notices': seq<Notice>, n': Notice)
    requires Routes(w, e, notices) && n in notices && Routes(w', e', notices') && n' in notices'
    requires ColonFree(e, n) && ColonFree(e', n') && SameKind(SubjectOf(e, n), SubjectOf(e', n'))
    ensures n.key == n'.key <==> SubjectOf(e, n) == SubjectOf(e', n')
  {
    ToldCodes(w, e, notices);
    ToldCodes(w', e', notices');
    ToldAddress(w, e, notices, n);
    ToldAddress(w', e', notices', n');
    match SubjectOf(e, n)
    case OfMention(_, _, _, _, _) => MentionKeysExactly(e, n.address, n.codes, e', n'.address, n'.codes);
    case OfNote(_, _, _, _) => NoteKeysExactly(e, n.address, n.codes, e', n'.address, n'.codes);
    case OfEvent(_, _, _) => EventKeysExactly(e, n.address, n.codes, e', n'.address, n'.codes);
  }

  /** A notice of the history has this key and is about this subject. */
  ghost predicate Concerned(turns: Turns, key: string, subject: Subject) {
    exists i: nat, n :: i < |turns| && n in turns[i].notices && n.key == key && SubjectOf(turns[i].event, n) == subject
  }

  /** Over every history: at most one row per project, merge request or issue, address and mention-bearing
      reasons, and per note, address and reasons, whatever the event keys are; and else per event key,
      address and reasons. */
  lemma OneRowPerSubject(syntax: Syntax, turns: Turns, x: string, y: string, subject: Subject)
    requires Possible(syntax, turns)
    requires x in StoredRows(turns) && y in StoredRows(turns)
    requires Concerned(turns, x, subject) && Concerned(turns, y, subject)
    ensures x == y
  {
    var i: nat, n :| i < |turns| && n in turns[i].notices && n.key == x && SubjectOf(turns[i].event, n) == subject;
    var j: nat, m :| j < |turns| && m in turns[j].notices && m.key == y && SubjectOf(turns[j].event, m) == subject;
    assert TurnAt(turns, i) && TurnAt(turns, j);
    SubjectGivesKey(turns[i].world, turns[i].event, turns[i].notices, n, turns[j].world, turns[j].event, turns[j].notices, m);
  }

  lemma KeyNotEmpty(e: Event, address: string, codes: set<string>)
    ensures DeliveryKey(e, address, codes) != ""
  {
    assert |BaseKey(e, Group(codes)) + ":" + Lower(address) + ":" + Group(codes)| > 0;
  }

  lemma StoresTurn(w: World, e: Event, notices: seq<Notice>, rows: Outbox.Rows, stamp: int)
    requires Routes(w, e, notices)
    ensures var after := Outbox.InsertAll(rows, Deliveries(notices), stamp);
            && (forall k :: k in after <==> k in rows || exists n | n in notices :: n.key == k)
            && (forall k | k in rows :: after[k] == rows[k])
  {
    var deliveries := Deliveries(notices);
    Outbox.InsertAllEffect(rows, deliveries, stamp);
    forall n | n in notices ensures n.key in Outbox.InsertAll(rows, deliveries, stamp) {
      ToldAddress(w, e, notices, n);
      KeyNotEmpty(e, n.address, n.codes);
      var i :| 0 <= i < |notices| && notices[i] == n;
      assert deliveries[i] == Outbox.Delivery(n.key, n.address) && deliveries[i] in deliveries;
    }
    forall d | d in deliveries ensures exists n | n in notices :: n.key == d.key {
      var i :| 0 <= i < |deliveries| && deliveries[i] == d;
      assert notices[i] in notices;
    }
  }

  /** And no row is shared: two notices of a history about different subjects of one kind, different events
      for one, have each a row of their own. */
  lemma OwnRows(syntax: Syntax, turns: Turns, i: nat, n: Notice, j: nat, m: Notice)
    requires Possible(syntax, turns) && i < |turns| && j < |turns| && n in turns[i].notices && m in turns[j].notices
    requires ColonFree(turns[i].event, n) && ColonFree(turns[j].event, m)
    requires SameKind(SubjectOf(turns[i].event, n), SubjectOf(turns[j].event, m))
    requires SubjectOf(turns[i].event, n) != SubjectOf(turns[j].event, m)
    ensures n.key != m.key && n.key in StoredRows(turns) && m.key in StoredRows(turns)
  {
    assert TurnAt(turns, i) && TurnAt(turns, j);
    SubjectsExactly(turns[i].world, turns[i].event, turns[i].notices, n, turns[j].world, turns[j].event, turns[j].notices, m);
    HistoryStores(syntax, turns, n.key);
    HistoryStores(syntax, turns, m.key);
  }

  ghost predicate Noticed(turns: Turns, k: string) {
    exists i: nat, n :: i < |turns| && n in turns[i].notices && n.key == k
  }

  lemma NoticedSnoc(front: Turns, last: Turn, k: string)
    ensures Noticed(front + [last], k) <==> Noticed(front, k) || exists n | n in last.notices :: n.key == k
  {
    var turns := front + [last];
    assert forall i: nat | i < |front| :: turns[i] == front[i];
    if n :| n in last.notices && n.key == k {
      assert turns[|front|] == last;
    }
    if Noticed(front, k) {
      var i: nat, n :| i < |front| && n in front[i].notices && n.key == k;
      assert n in turns[i].notices;
    }
  }

  /** Every notice of a history has its row, and every row comes from a notice. */
  lemma {:induction false} HistoryStores(syntax: Syntax, turns: Turns, k: string)
    requires Possible(syntax, turns)
    ensures k in StoredRows(turns) <==> Noticed(turns, k)
  {
    if turns != [] {
      var front, last := turns[..|turns| - 1], turns[|turns| - 1];
      assert turns == front + [last];
      assert TurnAt(turns, |turns| - 1);
      PrefixPossible(syntax, turns);
      StoresTurn(last.world, last.event, last.notices, StoredRows(front), Outbox.Stamp(last.world.now));
      HistoryStores(syntax, front, k);
      NoticedSnoc(front, last, k);
    }
  }

  /** A row stays as the first notice with its key made it. */
  lemma {:induction false} FirstNoticeWins(syntax: Syntax, turns: Turns, n: nat, k: string)
    requires Possible(syntax, turns) && n <= |turns| && k in StoredRows(turns[..n])
    ensures k in StoredRows(turns) && StoredRows(turns)[k] == StoredRows(turns[..n])[k]
    decreases |turns|
  {
    if n == |turns| {
      assert turns[..n] == turns;
    } else {
      var front, last := turns[..|turns| - 1], turns[|turns| - 1];
      assert front[..n] == turns[..n];
      assert TurnAt(turns, |turns| - 1);
      PrefixPossible(syntax, turns);
      FirstNoticeWins(syntax, front, n, k);
      StoresTurn(last.world, last.event, last.notices, StoredRows(front), Outbox.Stamp(last.world.now));
    }
  }

  /** The worker changes rows but never their keys, so the keys stored are those of the history. */
  lemma SameKeysStored(turns: Turns, t: Turn, rows: Outbox.Rows, stamp: int)
    requires Routes(t.world, t.event, t.notices) && rows.Keys == StoredRows(turns).Keys
    ensures Outbox.InsertAll(rows, Deliveries(t.notices), stamp).Keys == StoredRows(turns + [t]).Keys
  {
    assert (turns + [t])[..|turns|] == turns;
    StoresTurn(t.world, t.event, t.notices, rows, stamp);
    StoresTurn(t.world, t.event, t.notices, StoredRows(turns), Outbox.Stamp(t.world.now));
  }

  lemma PrefixPossible(syntax: Syntax, turns: Turns)
    requires Possible(syntax, turns) && turns != []
    ensures Possible(syntax, turns[..|turns| - 1])
  {
    var front := turns[..|turns| - 1];
    forall n: nat | n < |front| ensures TurnAt(front, n) && front[n].world.syntax == syntax {
      assert TurnAt(turns, n);
      assert front[..n] == turns[..n];
    }
  }

  class IngestService {
    const router: Router

    constructor (router: Router)
      ensures this.router == router
    {
      this.router := router;
    }

    method Remember(person: Identity, source: string, stamp: int)
      requires router.identities.Valid()
      modifies router.identities
      ensures router.identities.Valid()
      ensures Attempt(router.identities.syntax, old(router.identities.rows), router.identities.rows, person, source, stamp)
    {
      ghost var before := router.identities.rows;
      var identity := person;
      if identity.provider == "" {
        identity := identity.(provider := source);
      }
      if identity.id == "" && identity.username == "" {
        return;
      }
      if identity.email == "" {
        return;
      }
      var result := router.identities.Upsert(identity.provider, identity, true, stamp);
      if result.Failure? {
        assert result == Failure(result.error) && (result.error == Identities.UnusableEmail || result.error == Identities.Conflict);
      } else {
        ghost var named := WithSource(person, source);
        assert Identities.Accepts(router.identities.syntax, before, router.identities.rows, result.value, named.provider, named, true, stamp);
      }
    }

    /** Remembers the people an event names; what cannot be stored is skipped. */
    method RememberIdentities(e: Event, stamp: int) returns (ghost trail: seq<Identities.Rows>)
      requires router.identities.Valid()
      modifies router.identities
      ensures router.identities.Valid()
      ensures Attempts(router.identities.syntax, trail, EventIdentities(e), e.source, stamp)
      ensures trail[0] == old(router.identities.rows) && trail[|trail| - 1] == router.identities.rows
    {
      var store := router.identities;
      var people := EventIdentities(e);
      trail := [store.rows];
      for n := 0 to |people|
        invariant store.Valid()
        invariant |trail| == n + 1 && trail[0] == old(store.rows) && trail[n] == store.rows
        invariant forall j | 0 <= j < n :: Attempt(store.syntax, trail[j], trail[j + 1], people[j], e.source, stamp)
      {
        Remember(people[n], e.source, stamp);
        trail := trail + [store.rows];
      }
    }

    /** One webhook. What the router decides is decided on the identities just remembered and on the
        memory the earlier webhooks left; deliveries and memory are stored together. */
    method Handle(decoded: Decoded, now: int)
      returns (result: Result<Outcome, IngestError>, ghost notices: seq<Notice>, ghost trail: seq<Identities.Rows>)
      requires router.identities.Valid() && router.preferences.syntax == router.identities.syntax
      modifies router.identities, router.outbox
      ensures router.identities.Valid()
      ensures decoded.IgnoredRequest? <==> result == Success(Ignored)
      ensures decoded.Malformed? <==> result == Failure(NotDecoded)
      ensures decoded.Decoded? ==>
                && Attempts(router.identities.syntax, trail, EventIdentities(decoded.event), decoded.event.source, Outbox.Stamp(now))
                && trail[0] == old(router.identities.rows) && trail[|trail| - 1] == router.identities.rows
      ensures !decoded.Decoded? ==> router.identities.rows == old(router.identities.rows)
      ensures decoded.Decoded? ==>
                (result.Success? <==> decoded.event.key != "" && decoded.event.kind != OtherEvent)
      ensures !(result.Success? && result.value.Stored?) ==>
                router.outbox.rows == old(router.outbox.rows) && router.outbox.pipelines == old(router.outbox.pipelines)
      ensures result.Success? && result.value.Stored? ==>
                && Routes(router.WorldAt(now).(pipelines := old(router.outbox.pipelines)), decoded.event, notices)
                && router.outbox.rows == Outbox.InsertAll(old(router.outbox.rows), Deliveries(notices), Outbox.Stamp(now))
                && router.outbox.pipelines == Outbox.WritePipeline(old(router.outbox.pipelines), UpdateFor(decoded.event, notices))
                && result.value.deliveries == |notices|
    {
      notices, trail := [], [];
      match decoded {
        case IgnoredRequest => return Success(Ignored), [], [];
        case Malformed => return Failure(NotDecoded), [], [];
        case Decoded(e) =>
          trail := RememberIdentities(e, Outbox.Stamp(now));
          var route, pick := router.Route(e, now);
          if route.Failure? {
            assert route == Failure(route.error) && (route.error == NoEventKey || route.error == IgnoredEvent);
            return Failure(NotRouted(route.error)), [], trail;
          }
          notices := route.value.notices;
          var stored := router.outbox.Enqueue(e.key, Deliveries(route.value.notices), route.value.update, now);
          return Success(Stored(|route.value.notices|, |route.value.unresolved|)), notices, trail;
      }
    }

    /** A handled webhook is the next turn of the history. */
    method HandleNext(decoded: Decoded, now: int, ghost turns: Turns)
      returns (result: Result<Outcome, IngestError>, ghost turns': Turns)
      requires router.identities.Valid() && router.preferences.syntax == router.identities.syntax
      requires Possible(router.identities.syntax, turns) && router.outbox.pipelines == Memory(turns)
      requires router.outbox.rows.Keys == StoredRows(turns).Keys
      modifies router.identities, router.outbox
      ensures router.identities.Valid()
      ensures Possible(router.identities.syntax, turns') && router.outbox.pipelines == Memory(turns')
      ensures router.outbox.rows.Keys == StoredRows(turns').Keys
      ensures result.Success? && result.value.Stored? ==>
                && |turns'| == |turns| + 1 && turns'[..|turns|] == turns
                && var t := turns'[|turns|];
                   && decoded.Decoded? && t.event == decoded.event
                   && t.world == router.WorldAt(now).(pipelines := old(router.outbox.pipelines))
                   && router.outbox.rows == Outbox.InsertAll(old(router.outbox.rows), Deliveries(t.notices), Outbox.Stamp(now))
                   && result.value.deliveries == |t.notices|
      ensures !(result.Success? && result.value.Stored?) ==> turns' == turns && router.outbox.rows == old(router.outbox.rows)
    {
      ghost var notices, trail;
      ghost var before, rows := router.outbox.pipelines, router.outbox.rows;
      result, notices, trail := Handle(decoded, now);
      turns' := turns;
      if result.Success? && result.value.Stored? {
        ghost var t := Turn(decoded.event, router.WorldAt(now).(pipelines := before), notices);
        Continues(router.identities.syntax, turns, t);
        SameKeysStored(turns, t, rows, Outbox.Stamp(now));
        turns' := turns + [t];
      }
    }
  }
}
