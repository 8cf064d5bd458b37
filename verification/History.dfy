/** Histories of webhooks handled one at a time: what one event leaves behind decides what a later one
    sends. */
module History {
  import opened Base
  import opened Text
  import opened Addresses
  import opened Preferences
  import opened Events
  import opened Routing
  import Outbox

  /** One accepted webhook: the event, what the router saw, and what it decided. */
  datatype Turn = Turn(event: Event, world: World, notices: seq<Notice>)

  type Turns = seq<Turn>

  /** The pipeline memory after some turns, starting from an empty table. */
  function Memory(turns: Turns): map<string, Outbox.PipelineState> {
    if turns == [] then map[]
    else
      var last := turns[|turns| - 1];
      Outbox.WritePipeline(Memory(turns[..|turns| - 1]), UpdateFor(last.event, last.notices))
  }

  ghost predicate TurnAt(turns: Turns, n: nat)
    requires n < |turns|
  {
    var t := turns[n];
    Routes(t.world, t.event, t.notices) && t.world.pipelines == Memory(turns[..n])
  }

  /** Each turn is routed on the memory the turns before it left; identities, preferences, policy and
      domains may change in between. */
  ghost predicate Possible(syntax: Syntax, turns: Turns) {
    && (forall n: nat | n < |turns| :: TurnAt(turns, n))
    && (forall n: nat | n < |turns| :: turns[n].world.syntax == syntax)
  }

  /** The pipeline under this key failed or succeeded. */
  predicate Concerns(e: Event, key: string) {
    e.kind == PipelineEvent && e.pipeline.Some? && e.pipeline.value.status in {"failed", "success"} && CorrelationKey(e) == key
  }

  predicate Fails(e: Event) {
    e.kind == PipelineEvent && e.pipeline.Some? && e.pipeline.value.status == "failed"
  }

  predicate Succeeds(e: Event) {
    e.kind == PipelineEvent && e.pipeline.Some? && e.pipeline.value.status == "success"
  }

  /** m is the latest turn before n under the key. */
  ghost predicate Latest(turns: Turns, n: nat, m: nat, key: string) {
    m < n <= |turns| && Concerns(turns[m].event, key) && forall j | m < j < n :: !Concerns(turns[j].event, key)
  }

  /** The memory under a key is exactly the outcome of the latest turn under it. */
  lemma {:induction false} MemoryIsLatest(turns: Turns, n: nat, key: string)
    requires n <= |turns|
    ensures forall m: nat | Latest(turns, n, m, key) ::
              key in Memory(turns[..n])
              && Memory(turns[..n])[key] == Outbox.PipelineState(turns[m].event.pipeline.value.status, Recipients(turns[m].notices))
    ensures key in Memory(turns[..n]) ==> exists m: nat :: Latest(turns, n, m, key)
  {
    if n > 0 {
      MemoryIsLatest(turns, n - 1, key);
      assert turns[..n][..n - 1] == turns[..n - 1];
      if Concerns(turns[n - 1].event, key) {
        assert Latest(turns, n, n - 1, key);
      } else {
        forall m: nat ensures Latest(turns, n, m, key) <==> Latest(turns, n - 1, m, key) {
          assert Latest(turns, n, m, key) ==> m != n - 1;
        }
        if key in Memory(turns[..n]) {
          var m: nat :| Latest(turns, n - 1, m, key);
          assert Latest(turns, n, m, key);
        }
      }
    }
  }

  /** The failure a success at turn n would clear. */
  ghost predicate Clears(turns: Turns, n: nat, m: nat) {
    n < |turns| && Succeeds(turns[n].event) && Latest(turns, n, m, CorrelationKey(turns[n].event)) && Fails(turns[m].event)
  }

  /** A remembered address is its own candidate, and the only one it can resolve to. */
  lemma AddressStands(w: World, address: string)
    requires UsableEmail(w.syntax, address) == address != ""
    ensures Named(Address(address, CI_RECOVERED, true)).email == address
    ensures CandidateKey(Named(Address(address, CI_RECOVERED, true))) == "email:" + address
    ensures Resolved(w, Named(Address(address, CI_RECOVERED, true))) == Named(Address(address, CI_RECOVERED, true))
    ensures EmailAddress(w.syntax, address) == Some(address)
  {
    UsableIsStable(w.syntax, address);
  }

  /** Every ask is a recovery notice to a usable address. */
  ghost predicate Recoveries(syntax: Syntax, asks: seq<Ask>) {
    forall ask | ask in asks :: ask.Address? && ask == Address(ask.value, CI_RECOVERED, true) && UsableEmail(syntax, ask.value) == ask.value != ""
  }

  /** The candidate under the key of a remembered address is that address. */
  lemma RecoveryCandidate(w: World, asks: seq<Ask>, items: Candidates, k: string)
    requires Recoveries(w.syntax, asks) && Gathers(items, asks) && k in items
    ensures items[k].identity.email != "" && k == "email:" + items[k].identity.email
    ensures items[k].identity == Named(Address(items[k].identity.email, CI_RECOVERED, true))
    ensures UsableEmail(w.syntax, items[k].identity.email) == items[k].identity.email
    ensures items[k].allowSelf
  {
    assert GathersKey(items[k], asks, k);
    var ask :| ask in asks && Under(ask, k) && items[k].identity == Named(ask);
    AddressStands(w, ask.value);
  }

  lemma AddressOfKey(a: string, b: string)
    requires "email:" + a == "email:" + b
    ensures a == b
  {
    assert ("email:" + a)[6..] == a && ("email:" + b)[6..] == b;
  }

  lemma RecoveryReaches(w: World, e: Event, asks: seq<Ask>, items: Candidates, ask: Ask, address: string)
    requires Recoveries(w.syntax, asks) && Gathers(items, asks) && ask in asks
    ensures ReachedBy(w, e, items, CandidateKey(Named(ask)), address) <==> address == ask.value && DomainAllowed(w.domains, address)
  {
    AddressStands(w, ask.value);
    var k := CandidateKey(Named(ask));
    assert Counts(ask);
    RecoveryCandidate(w, asks, items, k);
    AddressOfKey(items[k].identity.email, ask.value);
  }

  /** An address passes everything that is asked of a recovery notice. */
  predicate Passes(w: World, e: Event, address: string) {
    && DomainAllowed(w.domains, address)
    && Allows(w.syntax, w.policy, address)
    && Enabled(w.syntax, w.preferences, w.now, address, CI_RECOVERED, e.projectPath)
  }

  lemma RecoveryEnriched(w: World, e: Event, recipients: seq<string>)
    requires Succeeds(e) && CorrelationKey(e) in w.pipelines
    requires w.pipelines[CorrelationKey(e)] == Outbox.PipelineState("failed", recipients)
    requires forall r | r in recipients :: UsableEmail(w.syntax, r) == r != ""
    ensures Asks(e, w.pipelines) == EachAddress(recipients)
    ensures Recoveries(w.syntax, EachAddress(recipients)) && Enriched(w, e)
  {
    AsksExactly(e, w.pipelines);
    forall ask | Tells(e, w.pipelines, ask) && Counts(ask) ensures !KeyShifts(w, Named(ask)) {
      assert ask in EachAddress(recipients);
      AddressStands(w, ask.value);
    }
  }

  /** A success after a remembered failure is told to exactly the remembered addresses that still pass. */
  lemma RecoveryTold(w: World, e: Event, notices: seq<Notice>, recipients: seq<string>, address: string)
    requires Routes(w, e, notices) && Succeeds(e)
    requires CorrelationKey(e) in w.pipelines && w.pipelines[CorrelationKey(e)] == Outbox.PipelineState("failed", recipients)
    requires forall r | r in recipients :: UsableEmail(w.syntax, r) == r != ""
    ensures ToldOf(notices, address, CI_RECOVERED) <==> address in recipients && Passes(w, e, address)
  {
    RecoveryEnriched(w, e, recipients);
    AddAllGathers(EachAddress(recipients));
    AsksExactly(e, w.pipelines);
    ToldExactly(w, e, notices, address, CI_RECOVERED);
    SomeoneReaches(w, e, recipients, CandidatesOf(w, e), address);
  }

  lemma SomeoneReaches(w: World, e: Event, recipients: seq<string>, items: Candidates, address: string)
    requires Recoveries(w.syntax, EachAddress(recipients)) && Gathers(items, EachAddress(recipients))
    ensures (exists ask :: ask in EachAddress(recipients) &&
               Counts(ask) && ask.code == CI_RECOVERED && ReachedBy(w, e, items, CandidateKey(Named(ask)), address))
            <==> address in recipients && DomainAllowed(w.domains, address)
  {
    var asks := EachAddress(recipients);
    forall ask | ask in asks
      ensures ReachedBy(w, e, items, CandidateKey(Named(ask)), address) <==> address == ask.value && DomainAllowed(w.domains, address)
    {
      RecoveryReaches(w, e, asks, items, ask, address);
    }
    if address in recipients {
      var i :| 0 <= i < |recipients| && recipients[i] == address;
      assert asks[i] == Address(address, CI_RECOVERED, true) && asks[i] in asks;
      assert Counts(asks[i]);
    }
  }

  /** Without a remembered failure there is no recovery notice. */
  lemma NoRecovery(w: World, e: Event, notices: seq<Notice>, address: string)
    requires Routes(w, e, notices) && ToldOf(notices, address, CI_RECOVERED)
    ensures Succeeds(e) && CorrelationKey(e) in w.pipelines && w.pipelines[CorrelationKey(e)].status == "failed"
  {
    var n :| n in notices && n.address == address && CI_RECOVERED in n.codes;
    ToldWasAsked(w, e, notices, n, CI_RECOVERED);
    var ask :| ask in Asks(e, w.pipelines) && ask.code == CI_RECOVERED;
    AsksExactly(e, w.pipelines);
    assert Tells(e, w.pipelines, ask);
  }

  // Whole histories

  /** Over every history: a recovery notice goes to an address exactly when the turn is a success, the
      latest earlier outcome of that pipeline was a failure told to that address, and the address
      still passes the domain list, the allowlist and its own preferences. */
  lemma RecoveryExactly(syntax: Syntax, turns: Turns, n: nat, address: string)
    requires Possible(syntax, turns) && n < |turns|
    ensures ToldOf(turns[n].notices, address, CI_RECOVERED) <==>
              exists m: nat ::
                && Clears(turns, n, m)
                && ToldOf(turns[m].notices, address, CI_FAILED)
                && Passes(turns[n].world, turns[n].event, address)
  {
    var t := turns[n];
    var key := CorrelationKey(t.event);
    assert TurnAt(turns, n);
    MemoryIsLatest(turns, n, key);
    if ToldOf(t.notices, address, CI_RECOVERED) {
      NoRecovery(t.world, t.event, t.notices, address);
      var m: nat :| Latest(turns, n, m, key);
      assert Clears(turns, n, m);
    }
    forall m: nat | Clears(turns, n, m)
      ensures ToldOf(t.notices, address, CI_RECOVERED) <==> ToldOf(turns[m].notices, address, CI_FAILED) && Passes(t.world, t.event, address)
    {
      assert TurnAt(turns, m);
      FailureRecipients(turns[m].world, turns[m].event, turns[m].notices, address);
      RecoveryTold(t.world, t.event, t.notices, Recipients(turns[m].notices), address);
    }
  }

  /** No outcome of the same pipeline lies between m and n. */
  ghost predicate LatestOutcome(turns: Turns, n: nat, m: nat) {
    && m < n < |turns| && SamePipeline(turns[m].event, turns[n].event)
    && forall j | m < j < n && SamePipeline(turns[j].event, turns[n].event) :: !Fails(turns[j].event) && !Succeeds(turns[j].event)
  }

  /** The same for pipelines themselves, that of a merge request or of a ref of a project: when no project
      holds a colon, a recovery notice goes to an address exactly when the latest earlier outcome of the very
      same pipeline was a failure told to it, and the address still passes. */
  lemma RecoveryOfPipeline(syntax: Syntax, turns: Turns, n: nat, address: string)
    requires Possible(syntax, turns) && n < |turns|
    requires forall i: nat | i <= n :: ':' !in ProjectOf(turns[i].event)
    ensures ToldOf(turns[n].notices, address, CI_RECOVERED) <==>
              && Succeeds(turns[n].event)
              && exists m: nat ::
                   && LatestOutcome(turns, n, m) && Fails(turns[m].event)
                   && ToldOf(turns[m].notices, address, CI_FAILED)
                   && Passes(turns[n].world, turns[n].event, address)
  {
    RecoveryExactly(syntax, turns, n, address);
    forall i: nat | i < n
      ensures CorrelationKey(turns[i].event) == CorrelationKey(turns[n].event) <==> SamePipeline(turns[i].event, turns[n].event)
    {
      CorrelationExactly(turns[i].event, turns[n].event);
    }
    forall m: nat ensures Clears(turns, n, m) <==> Succeeds(turns[n].event) && LatestOutcome(turns, n, m) && Fails(turns[m].event) {
    }
  }

  lemma FailureRecipients(w: World, e: Event, notices: seq<Notice>, address: string)
    requires Routes(w, e, notices) && Fails(e)
    ensures address in Recipients(notices) <==> ToldOf(notices, address, CI_FAILED)
    ensures forall r | r in Recipients(notices) :: UsableEmail(w.syntax, r) == r != ""
  {
    FailureCodes(w, e, notices);
    if address in Recipients(notices) {
      var i :| 0 <= i < |notices| && Recipients(notices)[i] == address;
      assert notices[i] in notices && notices[i].address == address;
    }
    if ToldOf(notices, address, CI_FAILED) {
      var i :| 0 <= i < |notices| && notices[i].address == address;
      assert Recipients(notices)[i] == address;
    }
    forall r | r in Recipients(notices) ensures UsableEmail(w.syntax, r) == r != "" {
      var i :| 0 <= i < |notices| && Recipients(notices)[i] == r;
      ToldAddress(w, e, notices, notices[i]);
    }
  }

  /** Two recoveries of one pipeline are always separated by a failure, told to whoever hears of the
      second: no failure is announced as recovered twice. */
  lemma RecoveriesAreSeparated(syntax: Syntax, turns: Turns, i: nat, j: nat, first: string, second: string)
    requires Possible(syntax, turns) && i < j < |turns|
    requires CorrelationKey(turns[i].event) == CorrelationKey(turns[j].event)
    requires ToldOf(turns[i].notices, first, CI_RECOVERED) && ToldOf(turns[j].notices, second, CI_RECOVERED)
    ensures exists m: nat | i < m < j ::
              Fails(turns[m].event) && CorrelationKey(turns[m].event) == CorrelationKey(turns[j].event)
              && ToldOf(turns[m].notices, second, CI_FAILED)
  {
    RecoveryExactly(syntax, turns, i, first);
    RecoveryExactly(syntax, turns, j, second);
    var m: nat :| Clears(turns, j, m) && ToldOf(turns[m].notices, second, CI_FAILED);
    assert Concerns(turns[i].event, CorrelationKey(turns[j].event));
    assert i < m;
  }

  /** A turn on the current memory continues a history. */
  lemma Continues(syntax: Syntax, turns: Turns, t: Turn)
    requires Possible(syntax, turns)
    requires t.world.syntax == syntax && t.world.pipelines == Memory(turns) && Routes(t.world, t.event, t.notices)
    ensures Possible(syntax, turns + [t])
    ensures Memory(turns + [t]) == Outbox.WritePipeline(Memory(turns), UpdateFor(t.event, t.notices))
  {
    var all := turns + [t];
    assert all[..|turns|] == turns && all[..|all| - 1] == turns;
    forall n: nat | n < |all| ensures TurnAt(all, n) && all[n].world.syntax == syntax {
      if n < |turns| {
        assert all[..n] == turns[..n];
        assert TurnAt(turns, n);
      }
    }
  }
}
