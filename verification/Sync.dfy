/** The identity sync: the user directory decides which GitLab rows are enabled. */
module Sync {
  import opened Base
  import opened Text
  import opened Addresses
  import opened Identities

  datatype User = User(identity: Identity, active: bool)

  /** The optional e-mail directory: absent, failing, or answering with the addresses it knows. */
  datatype Directory = Absent | Failing | Answering(found: set<string>)

  datatype Report = Report(
    users: nat, eligible: nat, directoryFound: nat, considered: nat, upserted: nat,
    enabled: nat, disabled: nat, noEmail: nat, wrongDomain: nat, inactive: nat)

  function SyncEmail(syntax: Syntax, value: string): string {
    var email := Trim(value);
    if !WellFormed(syntax, email) || Contains(Lower(email), "noreply") then "" else Lower(email)
  }

  predicate Eligible(syntax: Syntax, domains: set<string>, user: User) {
    SyncEmail(syntax, user.identity.email) != "" && DomainAllowed(domains, SyncEmail(syntax, user.identity.email))
  }

  /** Eligible, active, and known to the e-mail directory when there is one. */
  predicate Wanted(syntax: Syntax, domains: set<string>, directory: Directory, user: User) {
    && Eligible(syntax, domains, user) && user.active
    && (directory.Answering? ==> SyncEmail(syntax, user.identity.email) in directory.found)
  }

  /** Who is wanted, condition by condition: active, with an address that is well-formed as given and no
      no-reply one, within the domains, and known to the directory when there is one. */
  lemma WantedExactly(syntax: Syntax, domains: set<string>, directory: Directory, user: User)
    ensures Wanted(syntax, domains, directory, user) <==>
              var given, email := Trim(user.identity.email), Normal(user.identity.email);
              && user.active
              && given != "" && '@' in given && syntax(given) && NoReplyFree(email)
              && DomainAllowed(domains, email)
              && (directory.Answering? ==> email in directory.found)
  {
    ContainsMeaning(Normal(user.identity.email), "noreply");
    assert |Normal(user.identity.email)| == |Trim(user.identity.email)|;
  }

  ghost predicate DistinctIds(users: seq<User>) {
    forall i, j | 0 <= i < j < |users| && users[i].identity.id != "" :: users[i].identity.id != users[j].identity.id
  }

  /** The user as it is handed to the store. */
  function Candidate(syntax: Syntax, user: User): User {
    user.(identity := user.identity.(provider := GITLAB, email := SyncEmail(syntax, user.identity.email)))
  }

  /** The eligible users in order, as they are handed to the store. */
  function Candidates(syntax: Syntax, domains: set<string>, users: seq<User>): seq<User> {
    if users == [] then []
    else
      var last := users[|users| - 1];
      Candidates(syntax, domains, users[..|users| - 1])
      + if Eligible(syntax, domains, last) then [Candidate(syntax, last)] else []
  }

  lemma {:induction false} CandidateMembers(syntax: Syntax, domains: set<string>, users: seq<User>)
    ensures forall c :: c in Candidates(syntax, domains, users) <==>
              exists u | u in users :: Eligible(syntax, domains, u) && c == Candidate(syntax, u)
    ensures |Candidates(syntax, domains, users)| <= |users|
  {
    if users != [] {
      CandidateMembers(syntax, domains, users[..|users| - 1]);
      assert users == users[..|users| - 1] + [users[|users| - 1]];
    }
  }

  lemma {:induction false} CandidatesDistinct(syntax: Syntax, domains: set<string>, users: seq<User>)
    requires DistinctIds(users)
    ensures DistinctIds(Candidates(syntax, domains, users))
  {
    if users != [] {
      var front, last := users[..|users| - 1], users[|users| - 1];
      CandidatesDistinct(syntax, domains, front);
      CandidateMembers(syntax, domains, front);
      var cs := Candidates(syntax, domains, front);
      forall i | 0 <= i < |cs| && cs[i].identity.id != "" ensures cs[i].identity.id != last.identity.id {
        assert cs[i] in cs;
      }
    }
  }

  predicate Listed(row: Row, ids: seq<string>) {
    row.provider == GITLAB && row.providerId != "" && row.providerId in ids
  }

  /** Every kept id has its row and that row is enabled. */
  ghost predicate KeptRows(rows: Rows, ids: seq<string>) {
    && NoDuplicates(ids)
    && forall id | id in ids :: id != "" && exists i: nat :: AnswersId(rows, i, GITLAB, id)
  }

  lemma KeptByUpsert(syntax: Syntax, rows: Rows, rows': Rows, i: nat, identity: Identity, enabled: bool, stamp: int, ids: seq<string>)
    requires Accepts(syntax, rows, rows', i, GITLAB, identity, enabled, stamp)
    requires KeptRows(rows, ids) && identity.id != "" && identity.id !in ids
    ensures KeptRows(rows', ids)
    ensures enabled ==> KeptRows(rows', ids + [identity.id])
  {
    forall id | id in ids ensures exists j: nat :: AnswersId(rows', j, GITLAB, id) {
      var j: nat :| AnswersId(rows, j, GITLAB, id);
      AcceptedFrame(syntax, rows, rows', i, GITLAB, identity, enabled, stamp, j);
      assert AnswersId(rows', j, GITLAB, id);
    }
    assert enabled ==> AnswersId(rows', i, GITLAB, identity.id);
  }

  ghost function ListedRows(rows: Rows, ids: seq<string>): set<nat> {
    set i | i in rows && Listed(rows[i], ids)
  }

  ghost function GitLabRows(rows: Rows): set<nat> {
    set i | i in rows && rows[i].provider == GITLAB
  }

  lemma ListedNext(rows: Rows, ids: seq<string>, id: string, i: nat)
    requires Unique(rows) && id != "" && id !in ids && AnswersId(rows, i, GITLAB, id)
    ensures ListedRows(rows, ids + [id]) == ListedRows(rows, ids) + {i}
    ensures i !in ListedRows(rows, ids)
  {
    forall j | j in rows ensures Listed(rows[j], ids + [id]) <==> Listed(rows[j], ids) || j == i {
      assert j != i ==> !HasId(rows[j], GITLAB, id);
    }
  }

  lemma KeptSplits(rows: Rows, ids: seq<string>, id: string)
    requires KeptRows(rows, ids + [id])
    ensures KeptRows(rows, ids) && id !in ids && id != "" && exists i: nat :: AnswersId(rows, i, GITLAB, id)
  {
    var all := ids + [id];
    assert forall k | 0 <= k < |ids| :: all[k] == ids[k];
    assert all[|ids|] == id && id in all;
    assert forall other | other in ids :: other in all;
  }

  /** As many listed rows as ids, because each id has exactly one row. */
  lemma {:induction false} ListedCount(rows: Rows, ids: seq<string>)
    requires Unique(rows) && KeptRows(rows, ids)
    ensures |ListedRows(rows, ids)| == |ids|
  {
    if ids == [] {
      assert ListedRows(rows, ids) == {};
    } else {
      var front, last := ids[..|ids| - 1], ids[|ids| - 1];
      assert ids == front + [last];
      KeptSplits(rows, front, last);
      ListedCount(rows, front);
      var i: nat :| AnswersId(rows, i, GITLAB, last);
      ListedNext(rows, front, last, i);
    }
  }

  /** The GitLab rows split into the listed and the stale ones. */
  lemma ListedOrStale(rows: Rows, ids: seq<string>)
    requires "" !in ids
    ensures |GitLabRows(rows)| == |ListedRows(rows, ids)| + |StaleRows(rows, GITLAB, ids)|
  {
    assert GitLabRows(rows) == ListedRows(rows, ids) + StaleRows(rows, GITLAB, ids);
    assert ListedRows(rows, ids) !! StaleRows(rows, GITLAB, ids);
  }

  /** Every user has an id of its own. */
  ghost predicate Keyed(users: seq<User>) {
    DistinctIds(users) && forall u | u in users :: u.identity.id != ""
  }

  lemma CandidatesKeyed(syntax: Syntax, domains: set<string>, users: seq<User>)
    requires Keyed(users)
    ensures Keyed(Candidates(syntax, domains, users))
  {
    CandidatesDistinct(syntax, domains, users);
    CandidateMembers(syntax, domains, users);
  }

  /** The id of an active, found candidate whose upsert was not refused. */
  ghost predicate Chosen(candidates: seq<User>, found: set<string>, refused: set<string>, id: string) {
    id !in refused && exists c | c in candidates :: c.identity.id == id && c.active && c.identity.email in found
  }

  ghost predicate Untouched(rest: seq<User>, ids: seq<string>, refused: set<string>) {
    forall c | c in rest :: c.identity.id !in ids && c.identity.id !in refused
  }

  lemma UntouchedNext(candidates: seq<User>, n: nat, ids: seq<string>, refused: set<string>)
    requires n < |candidates| && Keyed(candidates) && Untouched(candidates[n..], ids, refused)
    ensures candidates[n] in candidates && candidates[n] in candidates[n..]
    ensures Untouched(candidates[n + 1..], ids + [candidates[n].identity.id], refused + {candidates[n].identity.id})
    ensures forall c | c in candidates[..n] :: c.identity.id != candidates[n].identity.id
  {
    assert candidates[n..] == [candidates[n]] + candidates[n + 1..];
    forall c | c in candidates[n + 1..] ensures c.identity.id != candidates[n].identity.id {
      var j :| n + 1 <= j < |candidates| && candidates[j] == c;
    }
    assert forall c | c in candidates[..n] :: c in candidates;
  }

  lemma ChosenNext(candidates: seq<User>, n: nat, found: set<string>, refused: set<string>)
    requires n < |candidates| && Keyed(candidates)
    ensures var item := candidates[n];
            && (forall id :: Chosen(candidates[..n + 1], found, refused, id) <==>
                  Chosen(candidates[..n], found, refused, id)
                  || (id == item.identity.id && id !in refused && item.active && item.identity.email in found))
            && (forall id :: Chosen(candidates[..n + 1], found, refused + {item.identity.id}, id) <==>
                  Chosen(candidates[..n], found, refused, id))
  {
    assert candidates[..n + 1] == candidates[..n] + [candidates[n]];
    UntouchedNext(candidates, n, [], {});
  }

  /** In terms of the listed users, an id is chosen exactly when its user is wanted and not refused. */
  lemma ChosenAreWanted(syntax: Syntax, domains: set<string>, directory: Directory, users: seq<User>, found: set<string>, refused: set<string>)
    requires !directory.Failing?
    requires found == Found(directory, Candidates(syntax, domains, users))
    ensures forall id :: Chosen(Candidates(syntax, domains, users), found, refused, id) <==>
              id !in refused && exists u | u in users :: u.identity.id == id && Wanted(syntax, domains, directory, u)
  {
    var cs := Candidates(syntax, domains, users);
    CandidateMembers(syntax, domains, users);
    forall id
      ensures Chosen(cs, found, refused, id) <==>
              id !in refused && exists u | u in users :: u.identity.id == id && Wanted(syntax, domains, directory, u)
    {
      if u :| u in users && u.identity.id == id && Wanted(syntax, domains, directory, u) {
        assert Candidate(syntax, u) in cs;
      }
    }
  }

  /** After the last statement a GitLab row is enabled exactly when its id was kept, and the two counts
      add up to all GitLab rows. */
  lemma EnabledExactly(rows: Rows, rows': Rows, ids: seq<string>, stamp: int, disabled: nat)
    requires Unique(rows) && KeptRows(rows, ids) && rows'.Keys == rows.Keys
    requires forall i | i in rows :: rows'[i] == if Stale(rows[i], GITLAB, ids) then Disabled(rows[i], stamp) else rows[i]
    requires disabled == |StaleRows(rows, GITLAB, ids)|
    ensures forall i | i in rows' && rows'[i].provider == GITLAB :: rows'[i].enabled <==> rows'[i].providerId in ids
    ensures |ids| + disabled == |GitLabRows(rows')|
  {
    forall i | i in rows' && rows'[i].provider == GITLAB && rows'[i].providerId in ids ensures rows'[i].enabled {
      var j: nat :| AnswersId(rows, j, GITLAB, rows[i].providerId);
    }
    ListedCount(rows, ids);
    ListedOrStale(rows, ids);
    assert GitLabRows(rows') == GitLabRows(rows);
  }

  /** Where the second loop stands: the kept ids are those chosen so far, each with its enabled row. */
  ghost predicate Keeping(rows: Rows, candidates: seq<User>, n: nat, found: set<string>, ids: seq<string>, refused: set<string>)
    requires n <= |candidates|
  {
    && KeptRows(rows, ids)
    && Untouched(candidates[n..], ids, refused)
    && forall id :: id in ids <==> Chosen(candidates[..n], found, refused, id)
  }

  lemma KeepingRefused(rows: Rows, candidates: seq<User>, n: nat, found: set<string>, ids: seq<string>, refused: set<string>)
    requires n < |candidates| && Keyed(candidates) && Keeping(rows, candidates, n, found, ids, refused)
    ensures Keeping(rows, candidates, n + 1, found, ids, refused + {candidates[n].identity.id})
  {
    UntouchedNext(candidates, n, ids, refused);
    ChosenNext(candidates, n, found, refused);
  }

  lemma KeepingAccepted(syntax: Syntax, rows: Rows, rows': Rows, i: nat, candidates: seq<User>, n: nat, found: set<string>, stamp: int, ids: seq<string>, refused: set<string>)
    requires n < |candidates| && Keyed(candidates) && Keeping(rows, candidates, n, found, ids, refused)
    requires Accepts(syntax, rows, rows', i, GITLAB, candidates[n].identity, Present(found)(candidates[n]), stamp)
    ensures Keeping(rows', candidates, n + 1, found, if Present(found)(candidates[n]) then ids + [candidates[n].identity.id] else ids, refused)
  {
    UntouchedNext(candidates, n, ids, refused);
    ChosenNext(candidates, n, found, refused);
    KeptByUpsert(syntax, rows, rows', i, candidates[n].identity, Present(found)(candidates[n]), stamp, ids);
  }

  // What a run counts and what it does to the table

  function Number(users: seq<User>, which: User -> bool): nat {
    if users == [] then 0
    else Number(users[..|users| - 1], which) + if which(users[|users| - 1]) then 1 else 0
  }

  function NoEmail(syntax: Syntax): User -> bool {
    (u: User) => SyncEmail(syntax, u.identity.email) == ""
  }

  function WrongDomain(syntax: Syntax, domains: set<string>): User -> bool {
    (u: User) => SyncEmail(syntax, u.identity.email) != "" && !DomainAllowed(domains, SyncEmail(syntax, u.identity.email))
  }

  function Inactive(): User -> bool {
    (u: User) => !u.active
  }

  /** The addresses that count as known. */
  function Found(directory: Directory, candidates: seq<User>): set<string> {
    match directory
    case Answering(known) => known
    case _ => set c | c in candidates && c.active :: c.identity.email
  }

  function Present(found: set<string>): User -> bool {
    (u: User) => u.active && u.identity.email in found
  }

  ghost predicate Refuses(syntax: Syntax, rows: Rows, identity: Identity) {
    UsableEmail(syntax, identity.email) == "" || Conflicts(rows, GITLAB, identity)
  }

  /** One candidate handed to the store: written with its enabled flag, or refused for a reason. */
  ghost predicate Handed(syntax: Syntax, rows: Rows, rows': Rows, identity: Identity, enabled: bool, stamp: int) {
    (rows' == rows && Refuses(syntax, rows, identity)) || exists i :: Accepts(syntax, rows, rows', i, GITLAB, identity, enabled, stamp)
  }

  /** The table along the candidates, one entry more than there are candidates. */
  ghost predicate Handing(syntax: Syntax, trail: seq<Rows>, candidates: seq<User>, found: set<string>, stamp: int) {
    && |trail| == |candidates| + 1
    && forall n | 0 <= n < |candidates| ::
         Handed(syntax, trail[n], trail[n + 1], candidates[n].identity, Present(found)(candidates[n]), stamp)
  }

  ghost predicate RefusedAt(syntax: Syntax, trail: seq<Rows>, candidates: seq<User>, n: nat, id: string) {
    n < |candidates| && n + 1 < |trail| && candidates[n].identity.id == id
    && trail[n + 1] == trail[n] && Refuses(syntax, trail[n], candidates[n].identity)
  }

  /** Every refused id has a candidate that the store refused. */
  ghost predicate RefusedThere(syntax: Syntax, trail: seq<Rows>, candidates: seq<User>, refused: set<string>) {
    forall id | id in refused :: exists n: nat :: RefusedAt(syntax, trail, candidates, n, id)
  }

  /** The record of a run so far: from the rows it started with to the rows now. */
  ghost predicate Recorded(syntax: Syntax, trail: seq<Rows>, first: Rows, now: Rows, candidates: seq<User>, found: set<string>, stamp: int, refused: set<string>) {
    && Handing(syntax, trail, candidates, found, stamp)
    && RefusedThere(syntax, trail, candidates, refused)
    && trail[0] == first && trail[|candidates|] == now
  }

  lemma HandingNext(syntax: Syntax, trail: seq<Rows>, first: Rows, now: Rows, rows: Rows, candidates: seq<User>, n: nat, found: set<string>, stamp: int, refused: set<string>)
    requires n < |candidates| && Recorded(syntax, trail, first, now, candidates[..n], found, stamp, refused)
    requires Handed(syntax, now, rows, candidates[n].identity, Present(found)(candidates[n]), stamp)
    ensures Recorded(syntax, trail + [rows], first, rows, candidates[..n + 1], found, stamp, refused)
    ensures rows == now && Refuses(syntax, now, candidates[n].identity) ==>
              Recorded(syntax, trail + [rows], first, rows, candidates[..n + 1], found, stamp, refused + {candidates[n].identity.id})
  {
    var trail', item, upto := trail + [rows], candidates[n], candidates[..n + 1];
    assert upto == candidates[..n] + [item];
    forall id | id in refused ensures exists j: nat :: RefusedAt(syntax, trail', upto, j, id) {
      var j: nat :| RefusedAt(syntax, trail, candidates[..n], j, id);
      assert RefusedAt(syntax, trail', upto, j, id);
    }
    if rows == trail[n] && Refuses(syntax, trail[n], item.identity) {
      assert RefusedAt(syntax, trail', upto, n, item.identity.id);
    }
  }

  /** The identity was accepted and its row enabled. */
  ghost predicate Enables(syntax: Syntax, rows: Rows, rows': Rows, identity: Identity, stamp: int) {
    exists i :: Accepts(syntax, rows, rows', i, GITLAB, identity, true, stamp)
  }

  /** The n-th candidate was accepted, enabled, under this id. */
  ghost predicate KeepsAt(syntax: Syntax, trail: seq<Rows>, candidates: seq<User>, found: set<string>, stamp: int, n: nat, id: string) {
    && n < |candidates| && n + 1 < |trail| && candidates[n].identity.id == id && Present(found)(candidates[n])
    && Enables(syntax, trail[n], trail[n + 1], candidates[n].identity, stamp)
  }

  ghost predicate KeepsId(syntax: Syntax, trail: seq<Rows>, candidates: seq<User>, found: set<string>, stamp: int, id: string) {
    exists n: nat :: KeepsAt(syntax, trail, candidates, found, stamp, n, id)
  }

  /** The ids to keep are those of the candidates accepted enabled, whatever ids the candidates have. */
  ghost predicate KeptAre(syntax: Syntax, trail: seq<Rows>, candidates: seq<User>, found: set<string>, stamp: int, ids: seq<string>) {
    forall id :: id in ids <==> id != "" && KeepsId(syntax, trail, candidates, found, stamp, id)
  }

  lemma RefusedNotAccepted(syntax: Syntax, rows: Rows, identity: Identity, stamp: int)
    requires Unique(rows) && Refuses(syntax, rows, identity)
    ensures !Enables(syntax, rows, rows, identity, stamp)
  {
    forall i ensures !Accepts(syntax, rows, rows, i, GITLAB, identity, true, stamp) {
      if Accepts(syntax, rows, rows, i, GITLAB, identity, true, stamp) {
        AcceptedHasNoConflict(syntax, rows, rows, i, GITLAB, identity, true, stamp);
      }
    }
  }

  lemma KeepsIdNext(syntax: Syntax, trail: seq<Rows>, rows: Rows, candidates: seq<User>, n: nat, found: set<string>, stamp: int, id: string)
    requires n < |candidates| && |trail| == n + 1
    ensures var item := candidates[n];
            KeepsId(syntax, trail + [rows], candidates[..n + 1], found, stamp, id) <==>
              KeepsId(syntax, trail, candidates[..n], found, stamp, id)
              || (item.identity.id == id && Present(found)(item) && Enables(syntax, trail[n], rows, item.identity, stamp))
  {
    var trail', upto, front := trail + [rows], candidates[..n + 1], candidates[..n];
    if m: nat :| KeepsAt(syntax, trail', upto, found, stamp, m, id) {
      if m < n {
        assert upto[m] == front[m] && trail'[m] == trail[m] && trail'[m + 1] == trail[m + 1];
        assert KeepsAt(syntax, trail, front, found, stamp, m, id);
      }
    }
    if m: nat :| KeepsAt(syntax, trail, front, found, stamp, m, id) {
      assert upto[m] == front[m] && trail'[m] == trail[m] && trail'[m + 1] == trail[m + 1];
      assert KeepsAt(syntax, trail', upto, found, stamp, m, id);
    }
    if candidates[n].identity.id == id && Present(found)(candidates[n]) && Enables(syntax, trail[n], rows, candidates[n].identity, stamp) {
      assert KeepsAt(syntax, trail', upto, found, stamp, n, id);
    }
  }

  lemma KeptNext(syntax: Syntax, trail: seq<Rows>, rows: Rows, candidates: seq<User>, n: nat, found: set<string>, stamp: int, ids: seq<string>, accepted: bool)
    requires n < |candidates| && |trail| == n + 1 && KeptAre(syntax, trail, candidates[..n], found, stamp, ids)
    requires Present(found)(candidates[n]) ==> (accepted <==> Enables(syntax, trail[n], rows, candidates[n].identity, stamp))
    ensures KeptAre(syntax, trail + [rows], candidates[..n + 1], found, stamp,
                    if accepted && Present(found)(candidates[n]) && candidates[n].identity.id != "" then ids + [candidates[n].identity.id] else ids)
  {
    forall id
      ensures KeepsId(syntax, trail + [rows], candidates[..n + 1], found, stamp, id) <==>
                KeepsId(syntax, trail, candidates[..n], found, stamp, id)
                || (candidates[n].identity.id == id && accepted && Present(found)(candidates[n]))
    {
      KeepsIdNext(syntax, trail, rows, candidates, n, found, stamp, id);
    }
  }

  /** The last statement leaves the kept rows as they were written and disables the others. */
  ghost predicate KeepsOnly(written: Rows, now: Rows, ids: seq<string>, stamp: int) {
    && now.Keys == written.Keys
    && forall i | i in now :: now[i] == if Stale(written[i], GITLAB, ids) then Disabled(written[i], stamp) else written[i]
  }

  /** The rows of other providers are the same ones. */
  ghost predicate OthersStay(rows: Rows, rows': Rows) {
    forall i: nat ::
      (i in rows && rows[i].provider != GITLAB) || (i in rows' && rows'[i].provider != GITLAB) ==>
        i in rows && i in rows' && rows'[i] == rows[i]
  }

  lemma HandedOthers(syntax: Syntax, rows: Rows, rows': Rows, identity: Identity, enabled: bool, stamp: int)
    requires Handed(syntax, rows, rows', identity, enabled, stamp)
    ensures OthersStay(rows, rows')
  {
    if rows' != rows {
      var i :| Accepts(syntax, rows, rows', i, GITLAB, identity, enabled, stamp);
      AcceptedSameProvider(syntax, rows, rows', i, GITLAB, identity, enabled, stamp);
    }
  }

  /** Handing GitLab users to the store touches no row of another provider. */
  lemma {:induction false} HandingOthers(syntax: Syntax, trail: seq<Rows>, candidates: seq<User>, found: set<string>, stamp: int, n: nat)
    requires Handing(syntax, trail, candidates, found, stamp) && n <= |candidates|
    ensures OthersStay(trail[0], trail[n])
  {
    if n > 0 {
      HandingOthers(syntax, trail, candidates, found, stamp, n - 1);
      HandedOthers(syntax, trail[n - 1], trail[n], candidates[n - 1].identity, Present(found)(candidates[n - 1]), stamp);
    }
  }

  /** The report after the first loop has seen these users, of so many listed. */
  function Tallied(syntax: Syntax, domains: set<string>, listed: nat, users: seq<User>): Report {
    var candidates := Candidates(syntax, domains, users);
    Report(listed, |candidates|, 0, 0, 0, 0, 0, Number(users, NoEmail(syntax)), Number(users, WrongDomain(syntax, domains)),
           Number(candidates, Inactive()))
  }

  lemma TalliedNext(syntax: Syntax, domains: set<string>, listed: nat, users: seq<User>, n: nat)
    requires n < |users|
    ensures var r := Tallied(syntax, domains, listed, users[..n]);
            Tallied(syntax, domains, listed, users[..n + 1]) ==
              if NoEmail(syntax)(users[n]) then r.(noEmail := r.noEmail + 1)
              else if WrongDomain(syntax, domains)(users[n]) then r.(wrongDomain := r.wrongDomain + 1)
              else r.(eligible := r.eligible + 1, inactive := r.inactive + if users[n].active then 0 else 1)
  {
    NumberNext(users, n, NoEmail(syntax));
    NumberNext(users, n, WrongDomain(syntax, domains));
    CandidatesNext(syntax, domains, users, n);
  }

  lemma CandidatesNext(syntax: Syntax, domains: set<string>, users: seq<User>, n: nat)
    requires n < |users|
    ensures var before, after := Candidates(syntax, domains, users[..n]), Candidates(syntax, domains, users[..n + 1]);
            var taken := !NoEmail(syntax)(users[n]) && !WrongDomain(syntax, domains)(users[n]);
            && |after| == |before| + (if taken then 1 else 0)
            && Number(after, Inactive()) == Number(before, Inactive()) + if taken && !users[n].active then 1 else 0
  {
    var before, after := Candidates(syntax, domains, users[..n]), Candidates(syntax, domains, users[..n + 1]);
    assert users[..n + 1][..n] == users[..n];
    if Eligible(syntax, domains, users[n]) {
      NumberSnoc(before, Candidate(syntax, users[n]), Inactive());
      assert after == before + [Candidate(syntax, users[n])];
    } else {
      assert after == before;
    }
  }

  lemma NumberSnoc(users: seq<User>, last: User, which: User -> bool)
    ensures Number(users + [last], which) == Number(users, which) + if which(last) then 1 else 0
  {
    assert (users + [last])[..|users|] == users;
  }

  /** Every listed user is counted once. */
  lemma {:induction false} TalliedAddsUp(syntax: Syntax, domains: set<string>, listed: nat, users: seq<User>)
    ensures var r := Tallied(syntax, domains, listed, users); |users| == r.noEmail + r.wrongDomain + r.eligible
  {
    if users != [] {
      var n := |users| - 1;
      TalliedAddsUp(syntax, domains, listed, users[..n]);
      TalliedNext(syntax, domains, listed, users, n);
      assert users[..n + 1] == users;
    }
  }

  lemma NumberNext(users: seq<User>, n: nat, which: User -> bool)
    requires n < |users|
    ensures Number(users[..n + 1], which) == Number(users[..n], which) + if which(users[n]) then 1 else 0
  {
    assert users[..n + 1][..n] == users[..n];
  }

  /** A GitLab row is enabled exactly when its id belongs to a wanted user that was not refused. */
  ghost predicate EnabledAsWanted(syntax: Syntax, domains: set<string>, directory: Directory, users: seq<User>, refused: set<string>, rows: Rows) {
    forall i | i in rows && rows[i].provider == GITLAB ::
      rows[i].enabled <==>
      rows[i].providerId !in refused
      && exists u | u in users :: u.identity.id == rows[i].providerId && Wanted(syntax, domains, directory, u)
  }

  /** What the writing half of a run reports and leaves behind, from the first rows to the rows now. */
  ghost predicate Synced(syntax: Syntax, domains: set<string>, users: seq<User>, directory: Directory, dryRun: bool, stamp: int,
                         first: Rows, now: Rows, report: Report, failed: bool, refused: set<string>, ids: seq<string>, trail: seq<Rows>)
  {
    var candidates := Candidates(syntax, domains, users);
    var found := Found(directory, candidates);
    && report.considered == |candidates|
    && report.directoryFound == (if directory.Absent? then 0 else Number(candidates, Present(found)))
    && (dryRun ==> now == first && !failed && report.upserted == report.enabled == report.disabled == 0)
    && (!dryRun ==>
          && trail != [] && Recorded(syntax, trail, first, trail[|trail| - 1], candidates, found, stamp, refused)
          && KeptAre(syntax, trail, candidates, found, stamp, ids) && KeepsOnly(trail[|trail| - 1], now, ids, stamp)
          && report.disabled == |StaleRows(trail[|trail| - 1], GITLAB, ids)|
          && OthersStay(first, now)
          && (failed <==> report.upserted < |candidates|)
          && (Keyed(users) ==>
                EnabledAsWanted(syntax, domains, directory, users, refused, now)
                && report.enabled + report.disabled == |GitLabRows(now)|))
  }

  lemma SyncedWritten(syntax: Syntax, domains: set<string>, users: seq<User>, directory: Directory, stamp: int,
                      first: Rows, written: Rows, now: Rows, report: Report, failed: bool, refused: set<string>, ids: seq<string>, trail: seq<Rows>)
    requires var candidates := Candidates(syntax, domains, users);
             && report.considered == |candidates|
             && report.directoryFound == (if directory.Absent? then 0 else Number(candidates, Present(Found(directory, candidates))))
             && Recorded(syntax, trail, first, written, candidates, Found(directory, candidates), stamp, refused)
             && KeptAre(syntax, trail, candidates, Found(directory, candidates), stamp, ids)
             && (failed <==> report.upserted < |candidates|)
    requires KeepsOnly(written, now, ids, stamp) && report.disabled == |StaleRows(written, GITLAB, ids)|
    requires Keyed(users) ==>
               EnabledAsWanted(syntax, domains, directory, users, refused, now)
               && report.enabled + report.disabled == |GitLabRows(now)|
    ensures Synced(syntax, domains, users, directory, false, stamp, first, now, report, failed, refused, ids, trail)
  {
    var candidates := Candidates(syntax, domains, users);
    HandingOthers(syntax, trail, candidates, Found(directory, candidates), stamp, |candidates|);
  }

  /** What the second loop builds up: the report, the ids to keep, the refused ids and whether it failed. */
  datatype Progress = Progress(report: Report, ids: seq<string>, refused: set<string>, failed: bool)

  class IdentitySync {
    const store: IdentityStore
    const domains: set<string>

    constructor (store: IdentityStore, domains: set<string>)
      ensures this.store == store && this.domains == domains
    {
      this.store, this.domains := store, domains;
    }

    /** The first loop: count and collect the eligible users. */
    method Collect(users: seq<User>) returns (candidates: seq<User>, report: Report)
      ensures candidates == Candidates(store.syntax, domains, users)
      ensures report == Tallied(store.syntax, domains, |users|, users)
    {
      candidates := [];
      report := Report(|users|, 0, 0, 0, 0, 0, 0, 0, 0, 0);
      for n := 0 to |users|
        invariant candidates == Candidates(store.syntax, domains, users[..n])
        invariant report == Tallied(store.syntax, domains, |users|, users[..n])
      {
        assert users[..n + 1][..n] == users[..n];
        TalliedNext(store.syntax, domains, |users|, users, n);
        var user := users[n];
        var email := SyncEmail(store.syntax, user.identity.email);
        if email == "" {
          report := report.(noEmail := report.noEmail + 1);
          continue;
        }
        if !DomainAllowed(domains, email) {
          report := report.(wrongDomain := report.wrongDomain + 1);
          continue;
        }
        report := report.(eligible := report.eligible + 1);
        candidates := candidates + [user.(identity := user.identity.(provider := GITLAB, email := email))];
        if !user.active {
          report := report.(inactive := report.inactive + 1);
        }
      }
      assert users[..|users|] == users;
    }

    /** One upsert of the second loop, and the id to keep. */
    method Hand(candidates: seq<User>, n: nat, found: set<string>, ids: seq<string>, refused: set<string>, stamp: int,
                ghost first: Rows, ghost trail: seq<Rows>)
      returns (accepted: bool, ids': seq<string>, refused': set<string>, ghost trail': seq<Rows>)
      requires store.Valid() && n < |candidates|
      requires Recorded(store.syntax, trail, first, store.rows, candidates[..n], found, stamp, refused)
      requires KeptAre(store.syntax, trail, candidates[..n], found, stamp, ids)
      requires Keyed(candidates) ==> Keeping(store.rows, candidates, n, found, ids, refused)
      modifies store
      ensures store.Valid()
      ensures KeptAre(store.syntax, trail', candidates[..n + 1], found, stamp, ids')
      ensures Recorded(store.syntax, trail', first, store.rows, candidates[..n + 1], found, stamp, refused')
      ensures Keyed(candidates) ==> Keeping(store.rows, candidates, n + 1, found, ids', refused')
      ensures Keyed(candidates) ==> |ids'| == |ids| + if accepted && Present(found)(candidates[n]) then 1 else 0
      ensures !accepted ==> candidates[n].identity.id in refused'
    {
      ghost var before := store.rows;
      var item := candidates[n];
      var enabled := item.active && item.identity.email in found;
      ids', refused' := ids, refused;
      var result := store.Upsert(GITLAB, item.identity, enabled, stamp);
      if result.Failure? {
        assert result == Failure(result.error) && (result.error == UnusableEmail || result.error == Conflict);
        HandingNext(store.syntax, trail, first, before, store.rows, candidates, n, found, stamp, refused);
        if Keyed(candidates) {
          KeepingRefused(before, candidates, n, found, ids, refused);
        }
        RefusedNotAccepted(store.syntax, before, item.identity, stamp);
        KeptNext(store.syntax, trail, store.rows, candidates, n, found, stamp, ids, false);
        return false, ids, refused + {item.identity.id}, trail + [store.rows];
      }
      HandingNext(store.syntax, trail, first, before, store.rows, candidates, n, found, stamp, refused);
      if Keyed(candidates) {
        KeepingAccepted(store.syntax, before, store.rows, result.value, candidates, n, found, stamp, ids, refused);
      }
      assert enabled ==> Accepts(store.syntax, before, store.rows, result.value, GITLAB, item.identity, true, stamp);
      KeptNext(store.syntax, trail, store.rows, candidates, n, found, stamp, ids, true);
      if enabled && item.identity.id != "" {
        ids' := ids + [item.identity.id];
      }
      return true, ids', refused, trail + [store.rows];
    }

    /** Where the second loop stands after n candidates. */
    ghost predicate Standing(first: Rows, candidates: seq<User>, n: nat, found: set<string>, directory: Directory, dryRun: bool,
                             counted: Report, stamp: int, progress: Progress, trail: seq<Rows>)
      requires n <= |candidates|
      reads store
    {
      var report := progress.report;
      && report == counted.(directoryFound := report.directoryFound, considered := counted.considered + n,
                            upserted := report.upserted, enabled := report.enabled)
      && report.directoryFound == counted.directoryFound + (if directory.Absent? then 0 else Number(candidates[..n], Present(found)))
      && (dryRun ==>
            store.rows == first && !progress.failed && report.upserted == counted.upserted && report.enabled == counted.enabled)
      && (!dryRun ==>
            && Recorded(store.syntax, trail, first, store.rows, candidates[..n], found, stamp, progress.refused)
            && KeptAre(store.syntax, trail, candidates[..n], found, stamp, progress.ids)
            && report.upserted - counted.upserted <= n && (progress.failed <==> report.upserted - counted.upserted < n)
            && (Keyed(candidates) ==>
                  Keeping(store.rows, candidates, n, found, progress.ids, progress.refused)
                  && report.enabled == counted.enabled + |progress.ids|))
    }

    /** One turn of the second loop. */
    method Consider(candidates: seq<User>, n: nat, found: set<string>, directory: Directory, dryRun: bool, stamp: int, progress: Progress,
                    ghost first: Rows, ghost counted: Report, ghost trail: seq<Rows>)
      returns (progress': Progress, ghost trail': seq<Rows>)
      requires store.Valid() && n < |candidates|
      requires Standing(first, candidates, n, found, directory, dryRun, counted, stamp, progress, trail)
      modifies store
      ensures store.Valid()
      ensures Standing(first, candidates, n + 1, found, directory, dryRun, counted, stamp, progress', trail')
    {
      var item, report := candidates[n], progress.report;
      trail' := trail;
      NumberNext(candidates, n, Present(found));
      var present := item.identity.email in found;
      if item.active && present && !directory.Absent? {
        report := report.(directoryFound := report.directoryFound + 1);
      }
      var enabled := item.active && present;
      report := report.(considered := report.considered + 1);
      if dryRun {
        return progress.(report := report), trail;
      }
      var accepted, ids, refused;
      accepted, ids, refused, trail' := Hand(candidates, n, found, progress.ids, progress.refused, stamp, first, trail);
      if !accepted {
        return Progress(report, ids, refused, true), trail';
      }
      report := report.(upserted := report.upserted + 1);
      if enabled {
        report := report.(enabled := report.enabled + 1);
      }
      return Progress(report, ids, refused, progress.failed), trail';
    }

    /** The second loop: write the mappings, unless this is a dry run. */
    method Write(candidates: seq<User>, found: set<string>, directory: Directory, dryRun: bool, counted: Report, stamp: int)
      returns (progress: Progress, ghost trail: seq<Rows>)
      requires store.Valid()
      modifies store
      ensures store.Valid()
      ensures Standing(old(store.rows), candidates, |candidates|, found, directory, dryRun, counted, stamp, progress, trail)
    {
      progress, trail := Progress(counted, [], {}, false), [store.rows];
      Begins(store.rows, candidates, found, stamp);
      for n := 0 to |candidates|
        invariant store.Valid()
        invariant Standing(old(store.rows), candidates, n, found, directory, dryRun, counted, stamp, progress, trail)
      {
        progress, trail := Consider(candidates, n, found, directory, dryRun, stamp, progress, old(store.rows), counted, trail);
      }
    }

    lemma Begins(rows: Rows, candidates: seq<User>, found: set<string>, stamp: int)
      ensures Recorded(store.syntax, [rows], rows, rows, candidates[..0], found, stamp, {})
      ensures KeptAre(store.syntax, [rows], candidates[..0], found, stamp, [])
      ensures Keeping(rows, candidates, 0, found, [], {})
    {}

    /** The last statement: every GitLab row that was not kept is disabled. */
    method Disable(users: seq<User>, candidates: seq<User>, found: set<string>, ids: seq<string>, refused: set<string>, directory: Directory, stamp: int)
      returns (disabled: nat)
      requires store.Valid() && !directory.Failing?
      requires candidates == Candidates(store.syntax, domains, users) && found == Found(directory, candidates)
      requires Keyed(candidates) ==> Keeping(store.rows, candidates, |candidates|, found, ids, refused)
      modifies store`rows
      ensures store.Valid()
      ensures KeepsOnly(old(store.rows), store.rows, ids, stamp) && disabled == |StaleRows(old(store.rows), GITLAB, ids)|
      ensures Keyed(users) ==>
                EnabledAsWanted(store.syntax, domains, directory, users, refused, store.rows)
                && |ids| + disabled == |GitLabRows(store.rows)|
    {
      ghost var before := store.rows;
      disabled := store.DisableExcept(GITLAB, ids, stamp);
      if Keyed(users) {
        CandidatesKeyed(store.syntax, domains, users);
        assert candidates[..|candidates|] == candidates;
        ChosenAreWanted(store.syntax, domains, directory, users, found, refused);
        EnabledExactly(before, store.rows, ids, stamp, disabled);
      }
    }

    /** Both loops' writes and the last statement. */
    method WriteAll(users: seq<User>, candidates: seq<User>, directory: Directory, dryRun: bool, counted: Report, stamp: int)
      returns (report: Report, failed: bool, refused: set<string>, ghost ids: seq<string>, ghost trail: seq<Rows>)
      requires store.Valid() && !directory.Failing? && candidates == Candidates(store.syntax, domains, users)
      requires counted == Tallied(store.syntax, domains, |users|, users)
      modifies store
      ensures store.Valid()
      ensures Synced(store.syntax, domains, users, directory, dryRun, stamp, old(store.rows), store.rows, report, failed, refused, ids, trail)
      ensures report == counted.(directoryFound := report.directoryFound, considered := report.considered,
                                 upserted := report.upserted, enabled := report.enabled, disabled := report.disabled)
    {
      var found := Found(directory, candidates);
      var progress;
      progress, trail := Write(candidates, found, directory, dryRun, counted, stamp);
      report, failed, refused, ids := progress.report, progress.failed, progress.refused, progress.ids;
      assert candidates[..|candidates|] == candidates;
      if dryRun {
        return;
      }
      if Keyed(users) {
        CandidatesKeyed(store.syntax, domains, users);
      }
      ghost var written := store.rows;
      var disabled := Disable(users, candidates, found, progress.ids, progress.refused, directory, stamp);
      report := report.(disabled := disabled);
      SyncedWritten(store.syntax, domains, users, directory, stamp, old(store.rows), written, store.rows, report, failed, refused, progress.ids, trail);
    }

    /** A sync run. `failed` says whether an error is reported; `refused` are the ids whose upsert was
        refused. */
    method Sync(dryRun: bool, listed: Option<seq<User>>, directory: Directory, stamp: int)
      returns (report: Report, failed: bool, refused: set<string>, ghost ids: seq<string>, ghost trail: seq<Rows>)
      requires store.Valid()
      modifies store
      ensures store.Valid()
      ensures listed.None? || directory.Failing? ==> failed && store.rows == old(store.rows)
      ensures listed.Some? ==>
                && var t := Tallied(store.syntax, domains, |listed.value|, listed.value);
                   report == t.(directoryFound := report.directoryFound, considered := report.considered,
                                upserted := report.upserted, enabled := report.enabled, disabled := report.disabled)
      ensures listed.Some? && !directory.Failing? ==>
                Synced(store.syntax, domains, listed.value, directory, dryRun, stamp, old(store.rows), store.rows, report, failed, refused, ids, trail)
    {
      report, failed, refused, ids, trail := Report(0, 0, 0, 0, 0, 0, 0, 0, 0, 0), false, {}, [], [];
      if listed.None? {
        return report, true, refused, ids, trail;
      }
      var users := listed.value;
      var candidates;
      candidates, report := Collect(users);
      if directory.Failing? {
        return report, true, refused, ids, trail;
      }
      report, failed, refused, ids, trail := WriteAll(users, candidates, directory, dryRun, report, stamp);
    }
  }
}
