/** One pass of the delivery worker over the store: claim a batch, then send and mark one by one. */
module Worker {
  import opened Base
  import opened Outbox
  import opened Addresses
  import opened Protocol

  lemma {:induction false} RunExtends(p: Params, s: State, trace: seq<Action>, a: Action)
    requires Runs(p, s, trace) && Enabled(p, Final(p, s, trace), a)
    ensures Runs(p, s, trace + [a]) && Final(p, s, trace + [a]) == Apply(p, Final(p, s, trace), a)
    decreases |trace|
  {
    if trace == [] {
      assert trace + [a] == [a] && [a][1..] == [];
    } else {
      assert (trace + [a])[0] == trace[0] && (trace + [a])[1..] == trace[1..] + [a];
      RunExtends(p, Apply(p, s, trace[0]), trace[1..], a);
    }
  }

  /** The surroundings of a pass: clock readings, the messenger's answers and whether the store
      answers, each by the number of the store call it belongs to; call 0 is the claim. */
  datatype Surroundings = Surroundings(time: nat -> int, reply: nat -> Outcome, storeFails: nat -> bool)

  ghost predicate MonotoneClock(e: Surroundings, from: int) {
    e.time(0) >= from && forall i: nat, j: nat | i <= j :: e.time(i) <= e.time(j)
  }

  /** What one turn of the loop makes of a claimed row. */
  function Handled(p: Params, row: Row, time: int, reply: Outcome): (after: Row)
    ensures after.status != Processing && after.recipient == row.recipient
  {
    if !Allows(p.syntax, p.policy, row.recipient) then FailRow(p.config, row, false, time)
    else
      match reply
      case Accepted(messageId) => DeliverRow(row, messageId, Stamp(time))
      case Rejected(retryable) => FailRow(p.config, row, retryable, time)
      case Unheard(retryable) => FailRow(p.config, row, retryable, time)
  }

  /** What a pass makes of the claimed row with a number. */
  ghost function Handling(p: Params, e: Surroundings): (nat, Row) -> Row {
    (j: nat, row: Row) => Handled(p, row, e.time(j + 1), e.reply(j + 1))
  }

  /** The first i claimed rows have been handled in order; no other row changed. */
  ghost predicate HandledUpTo(of: (nat, Row) -> Row, claimed: Rows, now: Rows, keys: seq<string>, i: nat) {
    && i <= |keys| && now.Keys == claimed.Keys
    && (forall k | k in now && k !in keys[..i] :: now[k] == claimed[k])
    && (forall j: nat | j < i :: keys[j] in now && now[keys[j]] == of(j, claimed[keys[j]]))
  }

  lemma HandledNext(of: (nat, Row) -> Row, claimed: Rows, now: Rows, keys: seq<string>, i: nat)
    requires HandledUpTo(of, claimed, now, keys, i) && i < |keys| && NoDuplicates(keys) && keys[i] in now
    ensures now[keys[i]] == claimed[keys[i]]
    ensures HandledUpTo(of, claimed, now[keys[i] := of(i, claimed[keys[i]])], keys, i + 1)
  {
    NextPrefix(keys, i);
  }

  lemma NextPrefix(keys: seq<string>, i: nat)
    requires i < |keys| && NoDuplicates(keys)
    ensures keys[i] !in keys[..i]
    ensures forall k :: k in keys[..i + 1] <==> k in keys[..i] || k == keys[i]
  {
    assert keys[..i + 1] == keys[..i] + [keys[i]];
  }

  /** Once all claimed rows are handled, a row in processing is one that was not claimed. */
  lemma HandledLeaves(of: (nat, Row) -> Row, claimed: Rows, now: Rows, keys: seq<string>, k: string)
    requires HandledUpTo(of, claimed, now, keys, |keys|)
    requires forall j: nat, row :: of(j, row).status != Processing
    requires k in now && now[k].status == Processing
    ensures k !in keys && now[k] == claimed[k]
  {
    assert keys[..|keys|] == keys;
    assert k !in keys by {
      forall j: nat | j < |keys| ensures keys[j] != k {
        assert of(j, claimed[keys[j]]).status != Processing;
      }
    }
  }

  /** The claim of the first ready deliveries. */
  ghost predicate Leased(p: Params, time: int, before: Rows, claimed: Rows, keys: seq<string>) {
    && Selects(p.config.maxAttempts, before, Stamp(time), p.batchSize, keys)
    && claimed == ClaimAll(before, keys, Stamp(time), Stamp(time + p.config.leaseDuration))
  }

  /** A finished pass: it claimed the first ready deliveries and handled each of them once, in order. */
  ghost predicate Passed(p: Params, e: Surroundings, before: Rows, now: Rows, keys: seq<string>) {
    exists claimed :: Leased(p, e.time(0), before, claimed, keys) && HandledUpTo(Handling(p, e), claimed, now, keys, |keys|)
  }

  /** A finished pass leaves none of the rows it claimed in processing. */
  lemma NoneLeft(p: Params, e: Surroundings, before: Rows, now: Rows, keys: seq<string>)
    requires Passed(p, e, before, now, keys)
    ensures forall k | k in now && now[k].status == Processing :: k in before && now[k] == before[k]
  {
    var claimed :| Leased(p, e.time(0), before, claimed, keys) && HandledUpTo(Handling(p, e), claimed, now, keys, |keys|);
    forall j: nat, row ensures Handling(p, e)(j, row).status != Processing {
      assert Handled(p, row, e.time(j + 1), e.reply(j + 1)).status != Processing;
    }
    forall k | k in now && now[k].status == Processing ensures k in before && now[k] == before[k] {
      HandledLeaves(Handling(p, e), claimed, now, keys, k);
    }
  }

  lemma ClaimApplied(p: Params, s: State, time: int, keys: seq<string>, rows: Rows)
    requires ValidParams(p) && Invariant(p, s) && s.batch == [] && s.clock <= time
    requires Leased(p, time, s.rows, rows, keys)
    ensures Apply(p, s, Tick(time)) == s.(clock := time)
    ensures Enabled(p, s.(clock := time), Claim(keys))
    ensures Apply(p, s.(clock := time), Claim(keys)) == s.(clock := time, batch := keys, rows := rows)
  {}

  /** A claim opens a run of the protocol. */
  lemma Opens(p: Params, s: State, time: int, keys: seq<string>, rows: Rows)
    requires ValidParams(p) && Invariant(p, s) && s.batch == [] && s.clock <= time
    requires Leased(p, time, s.rows, rows, keys)
    ensures var trace := [Tick(time), Claim(keys)];
            Runs(p, s, trace) && Final(p, s, trace) == s.(clock := time, batch := keys, rows := rows)
    ensures Invariant(p, s.(clock := time, batch := keys, rows := rows)) && s.sent.None? && NoDuplicates(keys)
  {
    ClaimApplied(p, s, time, keys, rows);
    StepKeeps(p, s, Tick(time));
    StepKeeps(p, s.(clock := time), Claim(keys));
    RunExtends(p, s, [], Tick(time));
    assert [Tick(time)] + [Claim(keys)] == [Tick(time), Claim(keys)];
    RunExtends(p, s, [] + [Tick(time)], Claim(keys));
  }

  class DeliveryWorker {
    const outbox: Store
    const batchSize: int
    const syntax: Syntax
    const policy: Policy

    constructor (outbox: Store, batchSize: int, syntax: Syntax, policy: Policy)
      ensures this.outbox == outbox && this.syntax == syntax && this.policy == policy
      ensures this.batchSize == if batchSize <= 0 then DEFAULT_LIMIT else batchSize
    {
      this.outbox, this.syntax, this.policy := outbox, syntax, policy;
      this.batchSize := if batchSize <= 0 then DEFAULT_LIMIT else batchSize;
    }

    function Parameters(): Params {
      Params(outbox.config, batchSize, syntax, policy)
    }

    /** The claim of a batch. */
    method Lease(time: int) returns (claimed: seq<Delivery>)
      requires batchSize > 0
      modifies outbox`rows
      ensures Leased(Parameters(), time, old(outbox.rows), outbox.rows, Keys(claimed))
      ensures forall d | d in claimed :: d.key in outbox.rows && d.recipient == outbox.rows[d.key].recipient
    {
      claimed := outbox.Claim(batchSize, time);
    }

    /** The claim that opens a pass. */
    method Take(time: int, ghost s: State) returns (claimed: seq<Delivery>, ghost next: State, ghost trace: seq<Action>)
      requires ValidParams(Parameters()) && Invariant(Parameters(), s)
      requires s.rows == outbox.rows && s.batch == [] && s.clock <= time
      modifies outbox`rows
      ensures Runs(Parameters(), s, trace) && Final(Parameters(), s, trace) == next && Invariant(Parameters(), next)
      ensures next.rows == outbox.rows && next.batch == Keys(claimed) && next.sent.None? && next.clock == time
      ensures Leased(Parameters(), time, old(outbox.rows), outbox.rows, Keys(claimed)) && NoDuplicates(Keys(claimed))
      ensures forall d | d in claimed :: d.key in outbox.rows && d.recipient == outbox.rows[d.key].recipient
    {
      claimed := Lease(time);
      ghost var keys := Keys(claimed);
      Opens(Parameters(), s, time, keys, outbox.rows);
      next, trace := s.(clock := time, batch := keys, rows := outbox.rows), [Tick(time), Claim(keys)];
    }

    /** One turn of the loop: block, or send and mark. A store failure ends the pass. */
    method Deliver(delivery: Delivery, e: Surroundings, i: nat, ghost s: State, ghost cur: State, ghost trace: seq<Action>)
      returns (ok: bool, ghost next: State, ghost longer: seq<Action>)
      requires ValidParams(Parameters()) && Invariant(Parameters(), cur)
      requires Runs(Parameters(), s, trace) && Final(Parameters(), s, trace) == cur
      requires cur.rows == outbox.rows && cur.clock <= e.time(i)
      requires cur.batch != [] && cur.batch[0] == delivery.key && cur.sent.None?
      requires delivery.recipient == cur.rows[delivery.key].recipient
      modifies outbox`rows
      ensures Runs(Parameters(), s, longer) && Final(Parameters(), s, longer) == next && Invariant(Parameters(), next)
      ensures next.rows == outbox.rows
      ensures !ok ==> next.batch == []
      ensures ok ==> next.batch == cur.batch[1..] && next.sent.None? && next.clock == e.time(i)
      ensures ok ==> outbox.rows == cur.rows[delivery.key := Handled(Parameters(), cur.rows[delivery.key], e.time(i), e.reply(i))]
      ensures ok <==> delivery.key != "" && !e.storeFails(i)
    {
      ghost var p := Parameters();
      if !Allows(syntax, policy, delivery.recipient) {
        next, longer := Advance(p, s, cur, trace, Tick(e.time(i)));
        if delivery.key == "" || e.storeFails(i) {
          next, longer := Advance(p, s, next, longer, Stop);
          return false, next, longer;
        }
        var _ := outbox.MarkFailed(delivery.key, false, e.time(i));
        next, longer := Advance(p, s, next, longer, Block);
        return true, next, longer;
      }
      var outcome := e.reply(i);
      next, longer := Advance(p, s, cur, trace, Send(outcome));
      next, longer := Advance(p, s, next, longer, Tick(e.time(i)));
      if delivery.key == "" || e.storeFails(i) {
        next, longer := Advance(p, s, next, longer, Stop);
        return false, next, longer;
      }
      match outcome {
        case Accepted(messageId) =>
          var _ := outbox.MarkDelivered(delivery.key, messageId, e.time(i));
        case Rejected(retryable) =>
          var _ := outbox.MarkFailed(delivery.key, retryable, e.time(i));
        case Unheard(retryable) =>
          var _ := outbox.MarkFailed(delivery.key, retryable, e.time(i));
      }
      next, longer := Advance(p, s, next, longer, Mark);
      return true, next, longer;
    }

    /** Every pass, finished or cut short by a store failure, is a run of the protocol that ends with
        the worker idle; a pass only stops early on a store failure. */
    method Process(e: Surroundings, ghost s: State) returns (finished: bool, ghost keys: seq<string>, ghost trace: seq<Action>)
      requires ValidParams(Parameters()) && Invariant(Parameters(), s)
      requires s.rows == outbox.rows && s.batch == [] && MonotoneClock(e, s.clock)
      modifies outbox`rows
      ensures Runs(Parameters(), s, trace)
      ensures var s' := Final(Parameters(), s, trace);
              Invariant(Parameters(), s') && s'.rows == outbox.rows && s'.batch == []
      ensures finished ==> Passed(Parameters(), e, old(outbox.rows), outbox.rows, keys)
      ensures !finished ==> (exists i: nat :: e.storeFails(i)) || "" in old(outbox.rows)
    {
      trace := [];
      if e.storeFails(0) {
        return false, [], trace;
      }
      var claimed;
      ghost var cur;
      claimed, cur, trace := Take(e.time(0), s);
      keys := Keys(claimed);
      finished, trace := DeliverAll(claimed, e, s, cur, trace);
    }

    /** Where the loop stands before turn i: the run so far ends in cur, and the first i are handled. */
    ghost predicate Turning(e: Surroundings, s: State, first: State, keys: seq<string>, i: nat, cur: State, trace: seq<Action>)
      reads outbox
    {
      && i <= |keys| && ValidParams(Parameters())
      && Runs(Parameters(), s, trace) && Final(Parameters(), s, trace) == cur && Invariant(Parameters(), cur)
      && cur.rows == outbox.rows && cur.batch == keys[i..] && cur.sent.None? && cur.clock == e.time(i)
      && HandledUpTo(Handling(Parameters(), e), first.rows, outbox.rows, keys, i)
    }

    /** One turn of the loop. */
    method TakeTurn(delivery: Delivery, e: Surroundings, i: nat, ghost s: State, ghost first: State, ghost keys: seq<string>,
                    ghost cur: State, ghost trace: seq<Action>)
      returns (ok: bool, ghost next: State, ghost longer: seq<Action>)
      requires Turning(e, s, first, keys, i, cur, trace) && i < |keys| && keys[i] == delivery.key
      requires NoDuplicates(keys) && e.time(i) <= e.time(i + 1)
      requires delivery.key in first.rows && delivery.recipient == first.rows[delivery.key].recipient
      modifies outbox`rows
      ensures ok ==> Turning(e, s, first, keys, i + 1, next, longer)
      ensures !ok ==>
                && Runs(Parameters(), s, longer) && Final(Parameters(), s, longer) == next && Invariant(Parameters(), next)
                && next.rows == outbox.rows && next.batch == []
      ensures !ok ==> delivery.key == "" || e.storeFails(i + 1)
    {
      assert keys[i..][1..] == keys[i + 1..];
      HandledNext(Handling(Parameters(), e), first.rows, outbox.rows, keys, i);
      ok, next, longer := Deliver(delivery, e, i + 1, s, cur, trace);
    }

    /** The loop over the claimed deliveries. */
    method DeliverAll(claimed: seq<Delivery>, e: Surroundings, ghost s: State, ghost first: State, ghost before: seq<Action>)
      returns (finished: bool, ghost trace: seq<Action>)
      requires ValidParams(Parameters()) && Invariant(Parameters(), first)
      requires Runs(Parameters(), s, before) && Final(Parameters(), s, before) == first
      requires first.rows == outbox.rows && first.batch == Keys(claimed) && first.sent.None? && first.clock == e.time(0)
      requires MonotoneClock(e, e.time(0)) && NoDuplicates(Keys(claimed))
      requires forall d | d in claimed :: d.key in outbox.rows && d.recipient == outbox.rows[d.key].recipient
      modifies outbox`rows
      ensures Runs(Parameters(), s, trace)
      ensures var s' := Final(Parameters(), s, trace);
              Invariant(Parameters(), s') && s'.rows == outbox.rows && s'.batch == []
      ensures finished ==> HandledUpTo(Handling(Parameters(), e), first.rows, outbox.rows, Keys(claimed), |Keys(claimed)|)
      ensures !finished ==> (exists i: nat :: e.storeFails(i)) || "" in first.rows
    {
      ghost var keys := Keys(claimed);
      ghost var cur := first;
      trace := before;
      assert keys[0..] == keys;
      for i := 0 to |claimed|
        invariant Turning(e, s, first, keys, i, cur, trace)
      {
        var ok;
        ok, cur, trace := TakeTurn(claimed[i], e, i, s, first, keys, cur, trace);
        if !ok {
          return false, trace;
        }
      }
      return true, trace;
    }
  }

  /** Records one more protocol step. */
  ghost method Advance(p: Params, s: State, cur: State, trace: seq<Action>, a: Action)
    returns (next: State, longer: seq<Action>)
    requires ValidParams(p) && Runs(p, s, trace) && Final(p, s, trace) == cur
    requires Invariant(p, cur) && Enabled(p, cur, a)
    ensures next == Apply(p, cur, a) && longer == trace + [a]
    ensures Runs(p, s, longer) && Final(p, s, longer) == next && Invariant(p, next)
  {
    RunExtends(p, s, trace, a);
    StepKeeps(p, cur, a);
    next, longer := Apply(p, cur, a), trace + [a];
  }
}
