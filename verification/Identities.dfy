/** The identities table: which address stands for a Git user, with its two partial unique indexes. */
module Identities {
  import opened Base
  import opened Text
  import opened Addresses

  const GITLAB := "gitlab"

  datatype Identity = Identity(provider: string, id: string, username: string, email: string, name: string)

  datatype Row = Row(
    provider: string,
    providerId: string,
    username: string,
    email: string,
    name: string,
    enabled: bool,
    updatedAt: int)

  type Rows = map<nat, Row>

  datatype UpsertError = UnusableEmail | Conflict

  predicate HasId(row: Row, provider: string, providerId: string) {
    row.provider == provider && row.providerId == providerId
  }

  predicate HasUsername(row: Row, provider: string, username: string) {
    row.provider == provider && row.username == username
  }

  /** identities_provider_id_idx and identities_username_idx */
  ghost predicate Unique(rows: Rows) {
    && (forall i, j | i in rows && j in rows && i != j && rows[i].providerId != "" ::
          !HasId(rows[j], rows[i].provider, rows[i].providerId))
    && (forall i, j | i in rows && j in rows && i != j && rows[i].username != "" ::
          !HasUsername(rows[j], rows[i].provider, rows[i].username))
  }

  /** The enabled row for a provider id, or for a username. */
  ghost predicate AnswersId(rows: Rows, i: nat, provider: string, providerId: string) {
    i in rows && rows[i].enabled && HasId(rows[i], provider, providerId)
  }

  ghost predicate AnswersUsername(rows: Rows, i: nat, provider: string, username: string) {
    i in rows && rows[i].enabled && HasUsername(rows[i], provider, username)
  }

  ghost function LookupId(rows: Rows, provider: string, providerId: string): Option<Row> {
    if exists i: nat :: AnswersId(rows, i, provider, providerId) then
      var i: nat :| AnswersId(rows, i, provider, providerId); Some(rows[i])
    else None
  }

  ghost function LookupUsername(rows: Rows, provider: string, username: string): Option<Row> {
    if exists i: nat :: AnswersUsername(rows, i, provider, username) then
      var i: nat :| AnswersUsername(rows, i, provider, username); Some(rows[i])
    else None
  }

  function ProviderOf(identity: Identity): string {
    if identity.provider == "" then GITLAB else identity.provider
  }

  /** A found row as an identity: the column that was not asked for stays empty when it was empty. */
  function Mapped(identity: Identity, row: Row): Identity {
    Identity(ProviderOf(identity),
             if identity.id == "" then "" else row.providerId,
             if identity.username == "" then "" else row.username,
             row.email, row.name)
  }

  /** What Resolve makes of one identity: its own usable email, else the mapped one, else unchanged. */
  ghost function ResolveOne(syntax: Syntax, rows: Rows, identity: Identity): Identity {
    var email := UsableEmail(syntax, identity.email);
    if email != "" then identity.(email := email)
    else if identity.id != "" then
      match LookupId(rows, ProviderOf(identity), identity.id)
      case Some(row) => Mapped(identity, row)
      case None => identity
    else if identity.username != "" then
      match LookupUsername(rows, ProviderOf(identity), Lower(identity.username))
      case Some(row) => Mapped(identity, row)
      case None => identity
    else identity
  }

  /** Where an upsert goes. */
  datatype Target = Refused | Update(row: nat) | Insert

  ghost predicate FindsId(rows: Rows, provider: string, providerId: string, found: Option<nat>) {
    match found
    case Some(i) => providerId != "" && i in rows && HasId(rows[i], provider, providerId)
    case None => providerId == "" || forall i | i in rows :: !HasId(rows[i], provider, providerId)
  }

  ghost predicate FindsUsername(rows: Rows, provider: string, username: string, found: Option<nat>) {
    match found
    case Some(i) => username != "" && i in rows && HasUsername(rows[i], provider, username)
    case None => username == "" || forall i | i in rows :: !HasUsername(rows[i], provider, username)
  }

  /** The conflict rules, for what the two queries found. */
  function Decide(rows: Rows, providerId: string, byId: Option<nat>, byUsername: Option<nat>): Target
    requires byUsername.Some? ==> byUsername.value in rows
  {
    if byUsername.Some? && providerId != "" && rows[byUsername.value].providerId != ""
       && providerId != rows[byUsername.value].providerId then Refused
    else if byId.Some? && byUsername.Some? && byId.value != byUsername.value then Refused
    else if byId.Some? then Update(byId.value)
    else if byUsername.Some? then Update(byUsername.value)
    else Insert
  }

  function Written(syntax: Syntax, provider: string, identity: Identity, enabled: bool, stamp: int): Row {
    Row(provider, identity.id, Lower(Trim(identity.username)), UsableEmail(syntax, identity.email), identity.name, enabled, stamp)
  }

  /** An upsert from rows to rows' that was accepted and wrote row i. */
  ghost predicate Accepts(syntax: Syntax, rows: Rows, rows': Rows, i: nat, provider: string, identity: Identity, enabled: bool, stamp: int) {
    var username := Lower(Trim(identity.username));
    && UsableEmail(syntax, identity.email) != ""
    && rows' == rows[i := Written(syntax, provider, identity, enabled, stamp)]
    && exists byId, byUsername ::
         && FindsId(rows, provider, identity.id, byId)
         && FindsUsername(rows, provider, username, byUsername)
         && (Decide(rows, identity.id, byId, byUsername) == Update(i)
             || (Decide(rows, identity.id, byId, byUsername) == Insert && i !in rows))
  }

  /** The conflict rules stand in the way of an upsert. */
  ghost predicate Conflicts(rows: Rows, provider: string, identity: Identity) {
    exists byId, byUsername ::
      && FindsId(rows, provider, identity.id, byId)
      && FindsUsername(rows, provider, Lower(Trim(identity.username)), byUsername)
      && Decide(rows, identity.id, byId, byUsername) == Refused
  }

  /** An upsert is accepted or conflicts, never both. */
  lemma AcceptedHasNoConflict(syntax: Syntax, rows: Rows, rows': Rows, i: nat, provider: string, identity: Identity, enabled: bool, stamp: int)
    requires Unique(rows) && Accepts(syntax, rows, rows', i, provider, identity, enabled, stamp)
    ensures !Conflicts(rows, provider, identity)
  {}

  /** A row is updated under the provider it was found with. */
  lemma AcceptedSameProvider(syntax: Syntax, rows: Rows, rows': Rows, i: nat, provider: string, identity: Identity, enabled: bool, stamp: int)
    requires Accepts(syntax, rows, rows', i, provider, identity, enabled, stamp)
    ensures i in rows ==> rows[i].provider == provider
  {}

  /** An accepted upsert never breaks an index, whichever row it goes to. */
  lemma AcceptedKeepsUnique(syntax: Syntax, rows: Rows, rows': Rows, i: nat, provider: string, identity: Identity, enabled: bool, stamp: int)
    requires Unique(rows) && Accepts(syntax, rows, rows', i, provider, identity, enabled, stamp)
    ensures Unique(rows')
  {
    AcceptedSameProvider(syntax, rows, rows', i, provider, identity, enabled, stamp);
  }

  /** The rows of other provider ids are not touched by an upsert that has one. */
  lemma AcceptedFrame(syntax: Syntax, rows: Rows, rows': Rows, i: nat, provider: string, identity: Identity, enabled: bool, stamp: int, j: nat)
    requires Accepts(syntax, rows, rows', i, provider, identity, enabled, stamp)
    requires j in rows && rows[j].providerId != "" && (identity.id != "" && rows[j].providerId != identity.id)
    ensures j != i && j in rows' && rows'[j] == rows[j]
  {}

  lemma LookupIdUnique(rows: Rows, i: nat, provider: string, providerId: string)
    requires Unique(rows) && providerId != "" && AnswersId(rows, i, provider, providerId)
    ensures LookupId(rows, provider, providerId) == Some(rows[i])
  {}

  /** A conflict is exactly this: the username belongs to a row of another person, or to a second row
      beside the one of the id. */
  lemma ConflictsExactly(rows: Rows, provider: string, identity: Identity)
    requires Unique(rows)
    ensures Conflicts(rows, provider, identity) <==>
              var username := Lower(Trim(identity.username));
              username != "" && identity.id != ""
              && exists j | j in rows :: HasUsername(rows[j], provider, username)
                   && (rows[j].providerId !in {"", identity.id}
                       || exists i | i in rows && i != j :: HasId(rows[i], provider, identity.id))
  {
    var username := Lower(Trim(identity.username));
    var byId := FoundId(rows, provider, identity.id);
    var byUsername := FoundUsername(rows, provider, username);
    assert FindsId(rows, provider, identity.id, byId) && FindsUsername(rows, provider, username, byUsername);
  }

  ghost function FoundId(rows: Rows, provider: string, providerId: string): (found: Option<nat>)
    ensures FindsId(rows, provider, providerId, found)
  {
    if providerId != "" && exists i :: i in rows && HasId(rows[i], provider, providerId) then
      var i :| i in rows && HasId(rows[i], provider, providerId); Some(i)
    else None
  }

  ghost function FoundUsername(rows: Rows, provider: string, username: string): (found: Option<nat>)
    ensures FindsUsername(rows, provider, username, found)
  {
    if username != "" && exists i :: i in rows && HasUsername(rows[i], provider, username) then
      var i :| i in rows && HasUsername(rows[i], provider, username); Some(i)
    else None
  }

  /** An identity without a usable e-mail of its own gets that of the enabled row of its provider id, gitlab
      when it names none; the columns it did not ask by stay empty. */
  lemma ResolvesById(syntax: Syntax, rows: Rows, i: nat, identity: Identity)
    requires Unique(rows) && UsableEmail(syntax, identity.email) == "" && identity.id != ""
    requires i in rows && rows[i].enabled && rows[i].providerId == identity.id
    requires rows[i].provider == if identity.provider == "" then "gitlab" else identity.provider
    ensures ResolveOne(syntax, rows, identity) ==
              Identity(rows[i].provider, identity.id, if identity.username == "" then "" else rows[i].username, rows[i].email, rows[i].name)
  {
    LookupIdUnique(rows, i, rows[i].provider, identity.id);
  }

  /** Or of its username, in any letter case, when it has no provider id. */
  lemma ResolvesByUsername(syntax: Syntax, rows: Rows, i: nat, identity: Identity)
    requires Unique(rows) && UsableEmail(syntax, identity.email) == "" && identity.id == "" && identity.username != ""
    requires i in rows && rows[i].enabled && rows[i].username == Lower(identity.username)
    requires rows[i].provider == if identity.provider == "" then "gitlab" else identity.provider
    ensures ResolveOne(syntax, rows, identity) == Identity(rows[i].provider, "", rows[i].username, rows[i].email, rows[i].name)
  {
    assert AnswersUsername(rows, i, rows[i].provider, rows[i].username);
    assert |rows[i].username| == |identity.username|;
  }

  /** A disabled row answers for no one: without an enabled one the identity stays as it is. */
  lemma DisabledUnresolved(syntax: Syntax, rows: Rows, identity: Identity)
    requires UsableEmail(syntax, identity.email) == ""
    requires forall i | i in rows && rows[i].provider == ProviderOf(identity) && rows[i].enabled ::
               if identity.id != "" then rows[i].providerId != identity.id else rows[i].username != Lower(identity.username)
    ensures ResolveOne(syntax, rows, identity) == identity
  {}

  /** An identity with a usable e-mail of its own keeps it, normalised, whatever the table says. */
  lemma OwnEmailWins(syntax: Syntax, rows: Rows, identity: Identity)
    requires UsableEmail(syntax, identity.email) != ""
    ensures ResolveOne(syntax, rows, identity) == identity.(email := Normal(identity.email))
  {}

  /** What was just stored is what the identity now resolves to. */
  lemma ResolvesToUpserted(syntax: Syntax, rows: Rows, rows': Rows, i: nat, provider: string, identity: Identity, stamp: int, asked: Identity)
    requires Unique(rows) && Accepts(syntax, rows, rows', i, provider, identity, true, stamp)
    requires identity.id != "" && asked.id == identity.id && ProviderOf(asked) == provider
    requires UsableEmail(syntax, asked.email) == ""
    ensures ResolveOne(syntax, rows', asked) ==
              Identity(provider, asked.id, if asked.username == "" then "" else Lower(Trim(identity.username)),
                       Normal(identity.email), identity.name)
  {
    AcceptedKeepsUnique(syntax, rows, rows', i, provider, identity, true, stamp);
    LookupIdUnique(rows', i, provider, identity.id);
  }

  /** An identity stored disabled is not resolved to. */
  lemma DisabledUpsertUnresolved(syntax: Syntax, rows: Rows, rows': Rows, i: nat, provider: string, identity: Identity, stamp: int, asked: Identity)
    requires Unique(rows) && Accepts(syntax, rows, rows', i, provider, identity, false, stamp)
    requires identity.id != "" && asked.id == identity.id && ProviderOf(asked) == provider
    requires UsableEmail(syntax, asked.email) == ""
    ensures ResolveOne(syntax, rows', asked) == asked
  {
    AcceptedKeepsUnique(syntax, rows, rows', i, provider, identity, false, stamp);
    assert HasId(rows'[i], provider, identity.id) && !rows'[i].enabled;
    DisabledUnresolved(syntax, rows', asked);
  }

  /** Every other provider id resolves as before, exactly unless the upsert came without a provider id
      and was matched by username to an enabled row: that row's id is blanked. */
  lemma OtherIdsUnchangedExactly(syntax: Syntax, rows: Rows, rows': Rows, i: nat, provider: string, identity: Identity, enabled: bool, stamp: int, provider': string, id': string)
    requires Unique(rows) && Accepts(syntax, rows, rows', i, provider, identity, enabled, stamp)
    requires id' != "" && (provider' != provider || id' != identity.id)
    ensures LookupId(rows', provider', id') == LookupId(rows, provider', id')
            <==> !(identity.id == "" && AnswersId(rows, i, provider', id'))
  {
    AcceptedKeepsUnique(syntax, rows, rows', i, provider, identity, enabled, stamp);
    if j: nat :| AnswersId(rows, j, provider', id') {
      LookupIdUnique(rows, j, provider', id');
      if j != i {
        assert AnswersId(rows', j, provider', id');
        LookupIdUnique(rows', j, provider', id');
      }
    } else if j: nat :| AnswersId(rows', j, provider', id') {
      assert rows' == rows[i := Written(syntax, provider, identity, enabled, stamp)];
      assert j == i || rows'[j] == rows[j];
      assert j != i ==> AnswersId(rows, j, provider', id');
      assert false;
    }
  }

  function Disabled(row: Row, stamp: int): Row {
    row.(enabled := false, updatedAt := stamp)
  }

  /** The rows the UPDATE of DisableExcept touches; an empty list keeps none. */
  predicate Stale(row: Row, provider: string, keep: seq<string>) {
    row.provider == provider && row.providerId !in keep
  }

  function StaleRows(rows: Rows, provider: string, keep: seq<string>): set<nat> {
    set i | i in rows && Stale(rows[i], provider, keep)
  }

  class IdentityStore {
    const syntax: Syntax
    var rows: Rows
    var nextId: nat

    ghost predicate Valid()
      reads this
    {
      Unique(rows) && nextId >= 1 && forall i | i in rows :: 1 <= i < nextId
    }

    constructor (syntax: Syntax)
      ensures Valid() && rows == map[] && this.syntax == syntax
    {
      this.syntax := syntax;
      rows, nextId := map[], 1;
    }

    method FindId(provider: string, providerId: string) returns (found: Option<nat>)
      ensures FindsId(rows, provider, providerId, found)
    {
      var matches := set i | i in rows && HasId(rows[i], provider, providerId);
      assert forall i | i in rows && HasId(rows[i], provider, providerId) :: i in matches;
      if providerId == "" || matches == {} {
        return None;
      }
      var i :| i in matches;
      return Some(i);
    }

    method FindUsername(provider: string, username: string) returns (found: Option<nat>)
      ensures FindsUsername(rows, provider, username, found)
    {
      var matches := set i | i in rows && HasUsername(rows[i], provider, username);
      assert forall i | i in rows && HasUsername(rows[i], provider, username) :: i in matches;
      if username == "" || matches == {} {
        return None;
      }
      var i :| i in matches;
      return Some(i);
    }

    /** Stores an identity, by provider id or else by username. A conflict changes nothing; the indexes
        never stand in the way of an accepted one. */
    method Upsert(provider: string, identity: Identity, enabled: bool, stamp: int) returns (result: Result<nat, UpsertError>)
      requires Valid()
      modifies this
      ensures Valid()
      ensures result.Failure? ==> rows == old(rows) && nextId == old(nextId)
      ensures result.Success? ==> Accepts(syntax, old(rows), rows, result.value, provider, identity, enabled, stamp)
      ensures result == Failure(UnusableEmail) <==> UsableEmail(syntax, identity.email) == ""
      ensures result == Failure(Conflict) ==> Conflicts(old(rows), provider, identity)
    {
      var email := UsableEmail(syntax, identity.email);
      if email == "" {
        return Failure(UnusableEmail);
      }
      var username := Lower(Trim(identity.username));
      var byId := FindId(provider, identity.id);
      var byUsername := FindUsername(provider, username);
      if byUsername.Some? && identity.id != "" && rows[byUsername.value].providerId != ""
         && identity.id != rows[byUsername.value].providerId {
        return Failure(Conflict);
      }
      if byId.Some? && byUsername.Some? && byId.value != byUsername.value {
        return Failure(Conflict);
      }
      var id := 0;
      if byId.Some? {
        id := byId.value;
      } else if byUsername.Some? {
        id := byUsername.value;
      }
      ghost var before := rows;
      if id > 0 {
        rows := rows[id := rows[id].(providerId := identity.id, username := username, email := email,
                                     name := identity.name, enabled := enabled, updatedAt := stamp)];
      } else {
        id := nextId;
        rows := rows[id := Row(provider, identity.id, username, email, identity.name, enabled, stamp)];
        nextId := nextId + 1;
      }
      assert Accepts(syntax, before, rows, id, provider, identity, enabled, stamp) by {
        assert FindsId(before, provider, identity.id, byId) && FindsUsername(before, provider, username, byUsername);
      }
      AcceptedKeepsUnique(syntax, before, rows, id, provider, identity, enabled, stamp);
      return Success(id);
    }

    /** Disables every row of the provider that is not listed; counts all of those, also the ones that
        were disabled before. */
    method DisableExcept(provider: string, keep: seq<string>, stamp: int) returns (count: nat)
      requires Valid()
      modifies this`rows
      ensures Valid()
      ensures rows.Keys == old(rows).Keys
      ensures forall i | i in rows :: rows[i] == if Stale(old(rows)[i], provider, keep) then Disabled(old(rows)[i], stamp) else old(rows)[i]
      ensures count == |StaleRows(old(rows), provider, keep)|
    {
      var stale := StaleRows(rows, provider, keep);
      rows := map i | i in rows :: if i in stale then Disabled(rows[i], stamp) else rows[i];
      return |stale|;
    }

    /** Resolves each identity on its own, in order. */
    method Resolve(identities: seq<Identity>) returns (resolved: seq<Identity>)
      requires Valid()
      ensures |resolved| == |identities|
      ensures forall i | 0 <= i < |identities| :: resolved[i] == ResolveOne(syntax, rows, identities[i])
    {
      resolved := [];
      for n := 0 to |identities|
        invariant |resolved| == n
        invariant forall i | 0 <= i < n :: resolved[i] == ResolveOne(syntax, rows, identities[i])
      {
        var identity := identities[n];
        var provider := if identity.provider == "" then GITLAB else identity.provider;
        if UsableEmail(syntax, identity.email) != "" {
          resolved := resolved + [identity.(email := UsableEmail(syntax, identity.email))];
          continue;
        }
        var matches: set<nat>;
        if identity.id != "" {
          matches := set i | i in rows && rows[i].enabled && HasId(rows[i], provider, identity.id);
          assert forall i :: i in matches <==> AnswersId(rows, i, provider, identity.id);
        } else if identity.username != "" {
          matches := set i | i in rows && rows[i].enabled && HasUsername(rows[i], provider, Lower(identity.username));
          assert forall i :: i in matches <==> AnswersUsername(rows, i, provider, Lower(identity.username));
        } else {
          resolved := resolved + [identity];
          continue;
        }
        if matches == {} {
          resolved := resolved + [identity];
          continue;
        }
        var i :| i in matches;
        var mapped := Identity(provider, rows[i].providerId, rows[i].username, rows[i].email, rows[i].name);
        if identity.id == "" {
          mapped := mapped.(id := identity.id);
        }
        if identity.username == "" {
          mapped := mapped.(username := identity.username);
        }
        resolved := resolved + [mapped];
      }
    }
  }
}
