/** What runs of the delivery protocol can lead to: repeats, stranded deliveries, and ties. Each is shown
    by a run, and with the exact condition where there is one. */
module Outcomes {
  import opened Base
  import opened Outbox
  import opened Addresses
  import opened Totals
  import opened Protocol

  // Runs put together

  lemma {:induction false} RunsJoin(p: Params, s: State, first: seq<Action>, second: seq<Action>)
    requires Runs(p, s, first) && Runs(p, Final(p, s, first), second)
    ensures Runs(p, s, first + second) && Final(p, s, first + second) == Final(p, Final(p, s, first), second)
    decreases |first|
  {
    if first == [] {
      assert first + second == second;
    } else {
      RunsJoin(p, Apply(p, s, first[0]), first[1..], second);
      assert (first + second)[1..] == first[1..] + second;
    }
  }

  lemma OneStep(p: Params, s: State, a: Action)
    requires Enabled(p, s, a)
    ensures Runs(p, s, [a]) && Final(p, s, [a]) == Apply(p, s, a)
  {
    assert [a][1..] == [];
  }

  lemma {:induction false} FirstReady(rows: Rows, ready: set<string>) returns (first: string)
    requires ready != {} && ready <= rows.Keys
    ensures first in ready && forall k | k in ready :: !Before(rows[k], rows[first])
  {
    var k :| k in ready;
    if ready == {k} {
      first := k;
    } else {
      first := FirstReady(rows, ready - {k});
      if Before(rows[k], rows[first]) {
        first := k;
      }
    }
  }

  /** There is always something the SELECT can return. */
  lemma {:induction false} SelectsSome(max: int, rows: Rows, stamp: int, limit: nat) returns (keys: seq<string>)
    ensures Selects(max, rows, stamp, limit, keys)
  {
    keys := [];
    if limit > 0 {
      keys := SelectsSome(max, rows, stamp, limit - 1);
      var rest := set k | k in rows && k !in keys && Claimable(max, rows[k], stamp);
      if rest != {} {
        assert forall k | k in rest :: |keys| == limit - 1;
        var first := FirstReady(rows, rest);
        keys := keys + [first];
      } else {
        assert forall k | k in rows && k !in keys :: k !in rest;
      }
    }
  }

  /** Not settled, and an attempt is left. */
  predicate Open(p: Params, row: Row) {
    !Settled(row) && row.attempts < p.config.maxAttempts
  }

  /** The record of k has not moved, only its attempts may have. */
  ghost predicate Untouched(s: State, s': State, k: string) {
    k in s.rows && k in s'.rows && k in s.log && k in s'.log
    && s'.log[k] == s.log[k] && s'.rows[k].recipient == s.rows[k].recipient
  }

  /** The status a mark leaves behind. */
  function AfterMark(p: Params, outcome: Outcome, attempts: nat): Status {
    match outcome
    case Accepted(_) => Delivered
    case Rejected(retryable) => if retryable && attempts < p.config.maxAttempts then Pending else Failed
    case Unheard(retryable) => if retryable && attempts < p.config.maxAttempts then Pending else Failed
  }

  /** s' is s with the head of the batch finished: only its row and record may differ, and no attempts do. */
  ghost predicate Finished(s: State, s': State)
    requires s.batch != []
  {
    && s'.batch == s.batch[1..] && s'.sent.None? && SameAttempts(s.rows, s'.rows)
    && (forall k | k in s.rows :: s'.rows[k].recipient == s.rows[k].recipient)
    && (forall k | k in s.rows && k != s.batch[0] :: s'.rows[k] == s.rows[k])
    && s'.log.Keys == s.log.Keys && (forall k | k in s.log && k != s.batch[0] :: s'.log[k] == s.log[k])
  }

  lemma MarkEffect(p: Params, s: State, outcome: Outcome)
    requires Invariant(p, s) && Enabled(p, s, Send(outcome))
    ensures Enabled(p, Apply(p, s, Send(outcome)), Mark)
    ensures var s', k := Apply(p, Apply(p, s, Send(outcome)), Mark), s.batch[0];
            && Finished(s, s') && s'.log[k] == AfterSend(s.log[k], outcome)
            && s'.rows[k].status == AfterMark(p, outcome, s.rows[k].attempts)
  {}

  lemma CanBeMarked(p: Params, s: State, outcome: Outcome) returns (trace: seq<Action>)
    requires ValidParams(p) && Invariant(p, s) && s.batch != [] && s.sent.None?
    requires Allows(p.syntax, p.policy, s.rows[s.batch[0]].recipient)
    ensures Runs(p, s, trace) && Stop !in trace
    ensures var s', k := Final(p, s, trace), s.batch[0];
            && Invariant(p, s') && Finished(s, s') && k in s.log && s'.log[k] == AfterSend(s.log[k], outcome)
            && s'.rows[k].status == AfterMark(p, outcome, s.rows[k].attempts)
  {
    var mid := Apply(p, s, Send(outcome));
    MarkEffect(p, s, outcome);
    OneStep(p, s, Send(outcome));
    StepKeeps(p, s, Send(outcome));
    OneStep(p, mid, Mark);
    StepKeeps(p, mid, Mark);
    trace := [Send(outcome)] + [Mark];
    RunsJoin(p, s, [Send(outcome)], [Mark]);
  }

  /** The head of the batch can be finished, whatever it is. */
  lemma CanBeFinished(p: Params, s: State) returns (trace: seq<Action>)
    requires ValidParams(p) && Invariant(p, s) && s.batch != [] && s.sent.None?
    ensures Runs(p, s, trace) && Stop !in trace
    ensures Invariant(p, Final(p, s, trace)) && Finished(s, Final(p, s, trace))
  {
    if Allows(p.syntax, p.policy, s.rows[s.batch[0]].recipient) {
      trace := CanBeMarked(p, s, Rejected(false));
    } else {
      OneStep(p, s, Block);
      StepKeeps(p, s, Block);
      trace := [Block];
    }
  }

  ghost predicate SameAttempts(rows: Rows, rows': Rows) {
    rows'.Keys == rows.Keys && forall k | k in rows :: rows'[k].attempts == rows[k].attempts
  }

  lemma SameCredits(p: Params, rows: Rows, rows': Rows)
    requires ValidParams(p) && SameAttempts(rows, rows')
    ensures Total(rows', Credits(p)) == Total(rows, Credits(p))
  {
    CreditSpent(p, rows, rows', {});
  }

  /** A batch can be finished down to any delivery in it, or altogether. */
  lemma {:induction false} CanDrain(p: Params, s: State, k: string) returns (trace: seq<Action>)
    requires ValidParams(p) && Invariant(p, s) && s.sent.None? && k in s.rows
    ensures Runs(p, s, trace) && Stop !in trace
    ensures var s' := Final(p, s, trace);
            && Invariant(p, s') && s'.sent.None? && SameAttempts(s.rows, s'.rows)
            && Untouched(s, s', k) && s'.rows[k] == s.rows[k]
            && (if k in s.batch then s'.batch != [] && s'.batch[0] == k else s'.batch == [])
    decreases |s.batch|
  {
    trace := [];
    if s.batch != [] && s.batch[0] != k {
      var first := CanBeFinished(p, s);
      Tail(s.batch);
      var rest := CanDrain(p, Final(p, s, first), k);
      RunsJoin(p, s, first, rest);
      trace := first + rest;
    }
  }

  lemma ClaimMisses(p: Params, s: State, k: string, keys: seq<string>)
    requires ValidParams(p) && Invariant(p, s) && Enabled(p, s, Claim(keys)) && k in s.rows && k !in keys
    requires Claimable(p.config.maxAttempts, s.rows[k], Stamp(s.clock))
    ensures var mid := Apply(p, s, Claim(keys));
            && Invariant(p, mid) && mid.sent.None? && k !in mid.batch && Untouched(s, mid, k) && mid.rows[k] == s.rows[k]
            && Total(mid.rows, Credits(p)) < Total(s.rows, Credits(p))
  {
    StepKeeps(p, s, Claim(keys));
    MissSpends(p, s.rows, Stamp(s.clock), Stamp(s.clock + p.config.leaseDuration), keys, k);
  }

  lemma MissSpends(p: Params, rows: Rows, stamp: int, leaseUntil: int, keys: seq<string>, k: string)
    requires ValidParams(p) && Selects(p.config.maxAttempts, rows, stamp, p.batchSize, keys)
    requires k in rows && k !in keys && Claimable(p.config.maxAttempts, rows[k], stamp)
    ensures Total(ClaimAll(rows, keys, stamp, leaseUntil), Credits(p)) < Total(rows, Credits(p))
  {
    ClaimSpends(p, rows, stamp, leaseUntil, keys);
    SelectedWereAhead(p.config.maxAttempts, rows, stamp, p.batchSize, keys, k);
  }

  /** A claim without k spends the credit of others; the batch can be finished and k is left as it is. */
  lemma MissedClaim(p: Params, s: State, k: string, keys: seq<string>) returns (trace: seq<Action>)
    requires ValidParams(p) && Invariant(p, s) && Enabled(p, s, Claim(keys)) && s.sent.None?
    requires k in s.rows && Claimable(p.config.maxAttempts, s.rows[k], Stamp(s.clock)) && k !in keys
    ensures Runs(p, s, trace) && Stop !in trace
    ensures var s' := Final(p, s, trace);
            && Invariant(p, s') && s'.batch == [] && Untouched(s, s', k) && s'.rows[k] == s.rows[k]
            && Total(s'.rows, Credits(p)) < Total(s.rows, Credits(p))
  {
    var mid := Apply(p, s, Claim(keys));
    OneStep(p, s, Claim(keys));
    ClaimMisses(p, s, k, keys);
    var rest := CanDrain(p, mid, k);
    RunsJoin(p, s, [Claim(keys)], rest);
    trace := [Claim(keys)] + rest;
    SameCredits(p, mid.rows, Final(p, mid, rest).rows);
  }

  lemma DueTime(p: Params, s: State, k: string) returns (time: int)
    requires ValidParams(p) && Invariant(p, s) && k in s.rows && Open(p, s.rows[k])
    ensures s.clock <= time && Claimable(p.config.maxAttempts, s.rows[k], Stamp(time))
  {
    assert RowRules(p, s.rows[k]);
    var due := Due(s.rows[k]) * MILLISECOND;
    time := if due < s.clock then s.clock else due;
    StampMonotone(due, time);
  }

  lemma ClaimHits(p: Params, s: State, k: string, keys: seq<string>)
    requires ValidParams(p) && Invariant(p, s) && Enabled(p, s, Claim(keys)) && k in s.rows && k in keys
    ensures Runs(p, s, [Claim(keys)])
    ensures var s' := Final(p, s, [Claim(keys)]);
            && Invariant(p, s') && Untouched(s, s', k) && k in s'.batch && s'.sent.None?
            && s'.rows[k].attempts == s.rows[k].attempts + 1
  {
    OneStep(p, s, Claim(keys));
    StepKeeps(p, s, Claim(keys));
  }

  /** From an idle worker, any open delivery can be brought into a batch without a stop, nothing else of
      it changed. */
  lemma {:induction false} CanBeClaimed(p: Params, s: State, k: string) returns (trace: seq<Action>)
    requires ValidParams(p) && Invariant(p, s) && s.batch == [] && k in s.rows && Open(p, s.rows[k])
    ensures Runs(p, s, trace) && Stop !in trace
    ensures var s' := Final(p, s, trace);
            && Invariant(p, s') && Untouched(s, s', k) && k in s'.batch && s'.sent.None?
            && s'.rows[k].attempts == s.rows[k].attempts + 1
    decreases Total(s.rows, Credits(p))
  {
    var time := DueTime(p, s, k);
    var mid := Apply(p, s, Tick(time));
    OneStep(p, s, Tick(time));
    StepKeeps(p, s, Tick(time));
    var keys := SelectsSome(p.config.maxAttempts, s.rows, Stamp(time), p.batchSize);
    var next;
    if k in keys {
      ClaimHits(p, mid, k, keys);
      next := [Claim(keys)];
    } else {
      var missed := MissedClaim(p, mid, k, keys);
      var rest := CanBeClaimed(p, Final(p, mid, missed), k);
      RunsJoin(p, mid, missed, rest);
      next := missed + rest;
    }
    RunsJoin(p, s, [Tick(time)], next);
    trace := [Tick(time)] + next;
  }

  /** From an idle worker, any open delivery can be brought to the head of a batch. */
  lemma CanBeHead(p: Params, s: State, k: string) returns (trace: seq<Action>)
    requires ValidParams(p) && Invariant(p, s) && s.batch == [] && k in s.rows && Open(p, s.rows[k])
    ensures Runs(p, s, trace) && Stop !in trace
    ensures var s' := Final(p, s, trace);
            && Invariant(p, s') && Untouched(s, s', k) && s'.batch != [] && s'.batch[0] == k && s'.sent.None?
            && s'.rows[k].attempts == s.rows[k].attempts + 1
  {
    var claim := CanBeClaimed(p, s, k);
    var lead := CanDrain(p, Final(p, s, claim), k);
    RunsJoin(p, s, claim, lead);
    trace := claim + lead;
  }

  /** From an idle worker, any open delivery to an allowed address can be sent and marked, whatever the
      outcome of the send. */
  lemma CanBeSent(p: Params, s: State, k: string, outcome: Outcome) returns (trace: seq<Action>)
    requires ValidParams(p) && Invariant(p, s) && s.batch == [] && k in s.rows && Open(p, s.rows[k])
    requires Allows(p.syntax, p.policy, s.rows[k].recipient)
    ensures Runs(p, s, trace) && Stop !in trace
    ensures var s' := Final(p, s, trace);
            && Invariant(p, s') && s'.batch == [] && k in s'.rows && s'.rows[k].recipient == s.rows[k].recipient
            && s'.rows[k].attempts == s.rows[k].attempts + 1
            && k in s.log && k in s'.log && s'.log[k] == AfterSend(s.log[k], outcome)
            && s'.rows[k].status == AfterMark(p, outcome, s.rows[k].attempts + 1)
  {
    var lead := CanBeHead(p, s, k);
    var head := Final(p, s, lead);
    Tail(head.batch);
    var mark := CanBeMarked(p, head, outcome);
    var marked := Final(p, head, mark);
    var rest := CanDrain(p, marked, k);
    RunsJoin(p, head, mark, rest);
    RunsJoin(p, s, lead, mark + rest);
    trace := lead + (mark + rest);
  }

  /** "Never sent again" needs the mark: when the process stops between an acceptance and its mark,
      with an attempt left, some run makes the messenger accept the same delivery once more. */
  lemma ResendHappens(p: Params, s: State, k: string, messageId: string)
    requires ValidParams(p) && Invariant(p, s)
    requires Unmarked(s, k) && s.rows[k].attempts < p.config.maxAttempts
    ensures exists trace ::
      && Runs(p, s, trace)
      && k in Final(p, s, trace).log && Final(p, s, trace).log[k].accepted == s.log[k].accepted + 1
  {
    assert RowRules(p, s.rows[k]) && Balanced(p, s, k);
    OneStep(p, s, Stop);
    StepKeeps(p, s, Stop);
    var rest := CanBeSent(p, Apply(p, s, Stop), k, Accepted(messageId));
    RunsJoin(p, s, [Stop], rest);
  }

  /** Nor does it take a stop: when the answer to an acceptance is lost and the failure is retried, some
      run without a stop ends with the delivery accepted twice. */
  lemma RepeatAfterLostAnswer(p: Params, s: State, k: string, messageId: string) returns (trace: seq<Action>)
    requires ValidParams(p) && Invariant(p, s) && s.batch == [] && k in s.rows
    requires !Settled(s.rows[k]) && s.rows[k].attempts + 1 < p.config.maxAttempts
    requires Allows(p.syntax, p.policy, s.rows[k].recipient)
    ensures Runs(p, s, trace) && Stop !in trace
    ensures var s' := Final(p, s, trace);
            && k in s.log && k in s'.rows && k in s'.log && s'.rows[k].status == Delivered
            && s'.log[k].accepted == s.log[k].accepted + 2 && s'.log[k].lost == s.log[k].lost
  {
    var first := CanBeSent(p, s, k, Unheard(true));
    var second := CanBeSent(p, Final(p, s, first), k, Accepted(messageId));
    RunsJoin(p, s, first, second);
    trace := first + second;
  }

  /** The same from a fresh store. */
  lemma RepeatHappens(p: Params, clock: int, d: Delivery, messageId: string)
    requires ValidParams(p) && p.config.maxAttempts >= 2 && d.key != "" && d.recipient != ""
    requires Allows(p.syntax, p.policy, d.recipient)
    ensures exists trace ::
      && Runs(p, Start(clock), trace) && Stop !in trace
      && var s := Final(p, Start(clock), trace);
         && d.key in s.rows && d.key in s.log && s.rows[d.key].status == Delivered
         && s.log[d.key].accepted == 2 && s.log[d.key].lost == 0
  {
    var a := Enqueue([d]);
    var s := Apply(p, Start(clock), a);
    InsertAllEffect(map[], [d], Stamp(clock));
    assert d in [d] && d.key in s.rows;
    OneStep(p, Start(clock), a);
    StepKeeps(p, Start(clock), a);
    var rest := RepeatAfterLostAnswer(p, s, d.key, messageId);
    RunsJoin(p, Start(clock), [a], rest);
  }

  /** Claimed for the last time, and no longer held by the worker. */
  ghost predicate Stranded(p: Params, s: State, k: string) {
    k in s.rows && Exhausted(p, s.rows[k]) && k !in s.batch
  }

  /** From an idle worker an unsettled delivery can be stranded without another send. */
  lemma {:induction false} CanBeStranded(p: Params, s: State, k: string) returns (trace: seq<Action>)
    requires ValidParams(p) && Invariant(p, s) && s.batch == [] && k in s.rows && !Settled(s.rows[k])
    ensures Runs(p, s, trace)
    ensures var s' := Final(p, s, trace);
            s'.batch == [] && Stranded(p, s', k) && k in s.log && k in s'.log && s'.log[k].sends == s.log[k].sends
    decreases p.config.maxAttempts - s.rows[k].attempts
  {
    assert RowRules(p, s.rows[k]);
    trace := [];
    if Open(p, s.rows[k]) {
      var claim := CanBeClaimed(p, s, k);
      var mid := Final(p, s, claim);
      OneStep(p, mid, Stop);
      StepKeeps(p, mid, Stop);
      var after := Apply(p, mid, Stop);
      assert RowRules(p, mid.rows[k]);
      var rest := CanBeStranded(p, after, k);
      RunsJoin(p, mid, [Stop], rest);
      RunsJoin(p, s, claim, [Stop] + rest);
      trace := claim + ([Stop] + rest);
    }
  }

  /** It does happen, whatever the maximum: any unsettled delivery of any reachable state can be
      stranded, and without another send. */
  lemma StrandingHappens(p: Params, s: State, k: string)
    requires ValidParams(p) && Invariant(p, s) && k in s.rows && !Settled(s.rows[k])
    ensures exists trace ::
      && Runs(p, s, trace)
      && var s' := Final(p, s, trace);
         s'.batch == [] && Stranded(p, s', k) && k in s.log && k in s'.log && s'.log[k].sends == s.log[k].sends
  {
    OneStep(p, s, Stop);
    StepKeeps(p, s, Stop);
    var rest := CanBeStranded(p, Apply(p, s, Stop), k);
    RunsJoin(p, s, [Stop], rest);
  }

  /** Even a delivery that was never sent: the run of a fresh store. */
  lemma StrandedUnsent(p: Params, clock: int)
    requires ValidParams(p)
    ensures exists trace, k ::
      && Runs(p, Start(clock), trace)
      && var s := Final(p, Start(clock), trace);
         Stranded(p, s, k) && s.batch == [] && k in s.log && s.log[k].sends == 0
  {
    var d := Delivery("k", "r");
    var a := Enqueue([d]);
    var s := Apply(p, Start(clock), a);
    InsertAllEffect(map[], [d], Stamp(clock));
    assert d in [d] && "k" in s.rows;
    OneStep(p, Start(clock), a);
    StepKeeps(p, Start(clock), a);
    var rest := CanBeStranded(p, s, "k");
    RunsJoin(p, Start(clock), [a], rest);
  }

  /** Somewhere in the run the process stops while the worker holds k on its last attempt. */
  ghost predicate StopsOnLast(p: Params, s: State, trace: seq<Action>, k: string)
    requires Runs(p, s, trace)
    decreases |trace|
  {
    trace != []
    && ((trace[0].Stop? && k in s.batch && k in s.rows && Exhausted(p, s.rows[k]))
        || StopsOnLast(p, Apply(p, s, trace[0]), trace[1..], k))
  }

  lemma StepStrands(p: Params, s: State, a: Action, k: string)
    requires ValidParams(p) && Invariant(p, s) && Enabled(p, s, a)
    requires !Stranded(p, s, k)
    ensures Stranded(p, Apply(p, s, a), k) <==> a.Stop? && k in s.batch && k in s.rows && Exhausted(p, s.rows[k])
  {
    StepKeeps(p, s, a);
    match a
    case Enqueue(deliveries) => InsertAllEffect(s.rows, deliveries, Stamp(s.clock));
    case Mark => Tail(s.batch);
    case Block => Tail(s.batch);
    case _ =>
  }

  /** Without a stop every row in processing stays in the batch. */
  lemma {:induction false} HeldWithoutStop(p: Params, s: State, trace: seq<Action>)
    requires ValidParams(p) && Invariant(p, s) && Runs(p, s, trace) && Stop !in trace
    requires forall k | k in s.rows && s.rows[k].status == Processing :: k in s.batch
    ensures var s' := Final(p, s, trace);
            forall k | k in s'.rows && s'.rows[k].status == Processing :: k in s'.batch
    decreases |trace|
  {
    if trace != [] {
      var a := trace[0];
      StepKeeps(p, s, a);
      StepHolds(p, s, a);
      HeldWithoutStop(p, Apply(p, s, a), trace[1..]);
      assert Final(p, s, trace) == Final(p, Apply(p, s, a), trace[1..]);
    }
  }

  lemma StepHolds(p: Params, s: State, a: Action)
    requires ValidParams(p) && Invariant(p, s) && Enabled(p, s, a) && a != Stop
    requires forall k | k in s.rows && s.rows[k].status == Processing :: k in s.batch
    ensures var s' := Apply(p, s, a);
            forall k | k in s'.rows && s'.rows[k].status == Processing :: k in s'.batch
  {
    match a
    case Enqueue(deliveries) => InsertAllEffect(s.rows, deliveries, Stamp(s.clock));
    case Mark => Tail(s.batch);
    case Block => Tail(s.batch);
    case _ =>
  }

  /** A delivery ends stranded exactly when somewhere in the run the process stopped while the worker
      held it on its last attempt. */
  lemma {:induction false} StrandedExactly(p: Params, s: State, trace: seq<Action>, k: string)
    requires ValidParams(p) && Invariant(p, s) && Runs(p, s, trace) && !Stranded(p, s, k)
    ensures Stranded(p, Final(p, s, trace), k) <==> StopsOnLast(p, s, trace, k)
    decreases |trace|
  {
    if trace != [] {
      var s' := Apply(p, s, trace[0]);
      StepKeeps(p, s, trace[0]);
      StepStrands(p, s, trace[0], k);
      if Stranded(p, s', k) {
        StrandedForever(p, s', trace[1..], k);
      } else {
        StrandedExactly(p, s', trace[1..], k);
      }
    }
  }

  // Within one millisecond

  /** Everything was stored in the present millisecond and never rescheduled. */
  ghost predicate Tied(s: State) {
    forall k | k in s.rows :: s.rows[k].nextAttempt == s.rows[k].createdAt == Stamp(s.clock)
  }

  /** Keys longer than any before, each one longer than the last. */
  ghost predicate Longer(keys: seq<string>, next: nat) {
    forall i | 0 <= i < |keys| :: |keys[i]| == next + i
  }

  lemma {:induction false} LongerKeys(next: nat, count: nat) returns (keys: seq<string>)
    ensures |keys| == count && Longer(keys, next)
  {
    keys := [];
    if count > 0 {
      keys := LongerKeys(next, count - 1);
      keys := keys + [seq(next + count - 1, _ => 'x')];
    }
  }

  function Arrivals(keys: seq<string>): (deliveries: seq<Delivery>)
    ensures |deliveries| == |keys|
    ensures forall i | 0 <= i < |keys| :: deliveries[i] == Delivery(keys[i], "r")
  {
    seq(|keys|, i requires 0 <= i < |keys| => Delivery(keys[i], "r"))
  }

  /** k waits, and no stored key is as long as the next ones to come. */
  ghost predicate Tying(p: Params, s: State, k: string, next: nat) {
    && Invariant(p, s) && s.batch == [] && Tied(s) && next > 0 && (forall j | j in s.rows :: |j| < next)
    && k in s.rows && Claimable(p.config.maxAttempts, s.rows[k], Stamp(s.clock))
  }

  lemma ArrivalsRows(rows: Rows, keys: seq<string>, next: nat, stamp: int)
    requires next > 0 && Longer(keys, next) && forall j | j in rows :: |j| < next
    ensures var after := InsertAll(rows, Arrivals(keys), stamp);
            && (forall j :: j in after <==> j in rows || j in keys)
            && (forall j | j in rows :: after[j] == rows[j])
            && (forall j | j in keys :: after[j] == FreshRow("r", stamp))
  {
    var arrivals := Arrivals(keys);
    InsertAllEffect(rows, arrivals, stamp);
    forall j | j in keys ensures j !in rows && j in InsertAll(rows, arrivals, stamp) {
      var i :| 0 <= i < |keys| && keys[i] == j;
      assert arrivals[i] in arrivals;
    }
    forall d | d in arrivals ensures d.key in keys && d.recipient == "r" {
      var i :| 0 <= i < |arrivals| && arrivals[i] == d;
      assert keys[i] in keys;
    }
  }

  lemma ArrivalsStored(p: Params, s: State, k: string, next: nat, keys: seq<string>)
    requires ValidParams(p) && Tying(p, s, k, next) && Longer(keys, next)
    ensures var s' := Apply(p, s, Enqueue(Arrivals(keys)));
            && Tying(p, s', k, next + |keys|) && s'.rows[k] == s.rows[k] && s'.clock == s.clock
            && forall j | j in keys :: j in s'.rows && s'.rows[j] == FreshRow("r", Stamp(s.clock))
  {
    EnqueueKeeps(p, s, Arrivals(keys));
    ArrivalsRows(s.rows, keys, next, Stamp(s.clock));
    forall j | j in keys ensures |j| < next + |keys| {
      var i :| 0 <= i < |keys| && keys[i] == j;
    }
  }

  lemma ArrivalsSelected(p: Params, s: State, k: string, next: nat, keys: seq<string>)
    requires ValidParams(p) && s.batch == [] && Tied(s) && |k| < next && Longer(keys, next) && |keys| == p.batchSize
    requires forall j | j in keys :: j in s.rows && s.rows[j] == FreshRow("r", Stamp(s.clock))
    ensures Enabled(p, s, Claim(keys)) && k !in keys
  {
    forall i, j | 0 <= i < j < |keys| ensures keys[i] != keys[j] {
      assert |keys[i]| < |keys[j]|;
    }
  }

  lemma ArrivalsRun(p: Params, s: State, k: string, next: nat, keys: seq<string>)
    requires ValidParams(p) && Tying(p, s, k, next) && Longer(keys, next) && |keys| == p.batchSize
    ensures Runs(p, s, [Enqueue(Arrivals(keys))])
    ensures var s' := Final(p, s, [Enqueue(Arrivals(keys))]);
            Tying(p, s', k, next + p.batchSize) && s'.clock == s.clock && Enabled(p, s', Claim(keys)) && k !in keys
  {
    OneStep(p, s, Enqueue(Arrivals(keys)));
    ArrivalsStored(p, s, k, next, keys);
    ArrivalsSelected(p, Apply(p, s, Enqueue(Arrivals(keys))), k, next, keys);
  }

  lemma TiedClaim(p: Params, s: State, k: string, next: nat, keys: seq<string>)
    requires ValidParams(p) && Tying(p, s, k, next) && Enabled(p, s, Claim(keys)) && k !in keys
    ensures Runs(p, s, [Claim(keys)])
    ensures var s' := Final(p, s, [Claim(keys)]);
            Invariant(p, s') && Tied(s') && s'.rows.Keys == s.rows.Keys && s'.rows[k] == s.rows[k] && s'.clock == s.clock
  {
    OneStep(p, s, Claim(keys));
    StepKeeps(p, s, Claim(keys));
  }

  lemma TiedStop(p: Params, s: State)
    requires ValidParams(p) && Invariant(p, s) && Tied(s)
    ensures Runs(p, s, [Stop])
    ensures var s' := Final(p, s, [Stop]);
            Invariant(p, s') && s'.batch == [] && s'.rows == s.rows && s'.clock == s.clock
  {
    OneStep(p, s, Stop);
    StepKeeps(p, s, Stop);
  }

  lemma TiedLease(p: Params, s: State, k: string, next: nat, keys: seq<string>)
    requires ValidParams(p) && Tying(p, s, k, next) && Enabled(p, s, Claim(keys)) && k !in keys
    ensures Runs(p, s, [Claim(keys)] + [Stop])
    ensures Tying(p, Final(p, s, [Claim(keys)] + [Stop]), k, next) && Final(p, s, [Claim(keys)] + [Stop]).clock == s.clock
  {
    TiedClaim(p, s, k, next, keys);
    TiedStop(p, Final(p, s, [Claim(keys)]));
    RunsJoin(p, s, [Claim(keys)], [Stop]);
  }

  function Round(keys: seq<string>): seq<Action> {
    [Enqueue(Arrivals(keys))] + ([Claim(keys)] + [Stop])
  }

  lemma RoundCount(keys: seq<string>, k: string)
    requires k !in keys
    ensures ClaimCount(Round(keys)) == 1 && forall a | a in Round(keys) :: !Takes(a, k)
  {
    CountJoin([Claim(keys)], [Stop]);
    CountJoin([Enqueue(Arrivals(keys))], [Claim(keys)] + [Stop]);
  }

  lemma TiedRound(p: Params, s: State, k: string, next: nat) returns (trace: seq<Action>)
    requires ValidParams(p) && Tying(p, s, k, next)
    ensures Runs(p, s, trace) && ClaimCount(trace) == 1 && forall a | a in trace :: !Takes(a, k)
    ensures Tying(p, Final(p, s, trace), k, next + p.batchSize) && Final(p, s, trace).clock == s.clock
  {
    var keys := LongerKeys(next, p.batchSize);
    trace := Round(keys);
    ArrivalsRun(p, s, k, next, keys);
    TiedLease(p, Final(p, s, [Enqueue(Arrivals(keys))]), k, next + p.batchSize, keys);
    RunsJoin(p, s, [Enqueue(Arrivals(keys))], [Claim(keys)] + [Stop]);
    RoundCount(keys, k);
  }

  lemma {:induction false} CountJoin(first: seq<Action>, second: seq<Action>)
    ensures ClaimCount(first + second) == ClaimCount(first) + ClaimCount(second)
  {
    if first == [] {
      assert first + second == second;
    } else {
      CountJoin(first[1..], second);
      assert (first + second)[1..] == first[1..] + second;
    }
  }

  lemma {:induction false} TiedRounds(p: Params, s: State, k: string, next: nat, n: nat) returns (trace: seq<Action>)
    requires ValidParams(p) && Tying(p, s, k, next)
    ensures Runs(p, s, trace) && ClaimCount(trace) == n && forall a | a in trace :: !Takes(a, k)
    ensures var s' := Final(p, s, trace); k in s'.rows && Claimable(p.config.maxAttempts, s'.rows[k], Stamp(s'.clock)) && s'.clock == s.clock
    decreases n
  {
    trace := [];
    if n > 0 {
      var first := TiedRound(p, s, k, next);
      var rest := TiedRounds(p, Final(p, s, first), k, next + p.batchSize, n - 1);
      RunsJoin(p, s, first, rest);
      CountJoin(first, rest);
      trace := first + rest;
    }
  }

  /** The bound does need the millisecond to be over: as long as the clock stands still, a delivery can be
      passed over by any number of full claims, all of them for arrivals that tie with it. */
  lemma TiesStarve(p: Params, clock: int, n: nat)
    requires ValidParams(p)
    ensures exists trace, k ::
      && Runs(p, Start(clock), trace) && ClaimCount(trace) == n && (forall a | a in trace :: !Takes(a, k))
      && var s := Final(p, Start(clock), trace);
         k in s.rows && Claimable(p.config.maxAttempts, s.rows[k], Stamp(s.clock)) && s.clock == clock
  {
    var d := Delivery("k", "r");
    var a := Enqueue([d]);
    var s := Apply(p, Start(clock), a);
    InsertAllEffect(map[], [d], Stamp(clock));
    assert d in [d] && "k" in s.rows;
    OneStep(p, Start(clock), a);
    StepKeeps(p, Start(clock), a);
    var rest := TiedRounds(p, s, "k", 2, n);
    RunsJoin(p, Start(clock), [a], rest);
    CountJoin([a], rest);
  }
}
