/** The delivery protocol: one sequential worker, webhooks that enqueue at any moment, a clock that
    does not go back, and a process that may stop between any two steps. */
module Protocol {
  import opened Base
  import opened Outbox
  import opened Addresses
  import opened Totals
  import Backoff

  /** How one send ends: accepted, rejected, or accepted with the answer lost on the way back, which the
      worker cannot tell from a rejection. */
  datatype Outcome = Accepted(messageId: string) | Rejected(retryable: bool) | Unheard(retryable: bool)

  datatype Params = Params(config: Config, batchSize: int, syntax: Syntax, policy: Policy)

  /** What happened to a delivery so far. `skipped` counts claims that ended without a send,
      `lost` acceptances the process stopped over before they were recorded, `unheard` acceptances whose
      answer was lost, `refused` permanent rejections. */
  datatype Tally = Tally(sends: nat, skipped: nat, accepted: nat, lost: nat, unheard: nat, refused: nat)

  /** `batch` is what the worker has claimed and not finished, the head first; `sent` is the answer
      for the head once it has been sent and not yet marked. */
  datatype State = State(
    rows: Rows,
    batch: seq<string>,
    sent: Option<Outcome>,
    clock: int,
    log: map<string, Tally>)

  datatype Action =
    | Enqueue(deliveries: seq<Delivery>)
    | Tick(time: int)
    | Claim(keys: seq<string>)
    | Block
    | Send(outcome: Outcome)
    | Mark
    | Stop

  const NO_TALLY := Tally(0, 0, 0, 0, 0, 0)

  ghost predicate ValidParams(p: Params) {
    p.config.maxAttempts > 0 && p.config.leaseDuration > 0 && p.config.retryDelay > 0 && p.batchSize > 0
  }

  ghost predicate Enabled(p: Params, s: State, a: Action) {
    match a
    case Enqueue(_) => true
    case Tick(time) => time >= s.clock
    case Claim(keys) =>
      s.batch == [] && Selects(p.config.maxAttempts, s.rows, Stamp(s.clock), p.batchSize, keys)
    case Block =>
      s.batch != [] && s.sent.None? && s.batch[0] in s.rows && s.batch[0] in s.log
      && !Allows(p.syntax, p.policy, s.rows[s.batch[0]].recipient)
    case Send(_) =>
      s.batch != [] && s.sent.None? && s.batch[0] in s.rows && s.batch[0] in s.log
      && Allows(p.syntax, p.policy, s.rows[s.batch[0]].recipient)
    case Mark =>
      s.batch != [] && s.sent.Some? && s.batch[0] in s.rows
    case Stop => true
  }

  function Opening(rows: Rows, log: map<string, Tally>): map<string, Tally> {
    map k | k in rows :: if k in log then log[k] else NO_TALLY
  }

  function AfterSend(t: Tally, o: Outcome): Tally {
    match o
    case Accepted(_) => t.(sends := t.sends + 1, accepted := t.accepted + 1)
    case Rejected(retryable) => t.(sends := t.sends + 1, refused := t.refused + if retryable then 0 else 1)
    case Unheard(_) => t.(sends := t.sends + 1, accepted := t.accepted + 1, unheard := t.unheard + 1)
  }

  /** What an abandoned batch entry adds to its record. */
  function AfterStop(s: State, k: string, t: Tally): Tally {
    if k !in s.batch then t
    else if k == s.batch[0] && s.sent.Some? then t.(lost := t.lost + if s.sent.value.Accepted? then 1 else 0)
    else t.(skipped := t.skipped + 1)
  }

  function MarkedRow(p: Params, s: State): Row
    requires s.batch != [] && s.sent.Some? && s.batch[0] in s.rows
  {
    var row := s.rows[s.batch[0]];
    match s.sent.value
    case Accepted(messageId) => DeliverRow(row, messageId, Stamp(s.clock))
    case Rejected(retryable) => FailRow(p.config, row, retryable, s.clock)
    case Unheard(retryable) => FailRow(p.config, row, retryable, s.clock)
  }

  ghost function Apply(p: Params, s: State, a: Action): State
    requires Enabled(p, s, a)
  {
    match a
    case Enqueue(deliveries) =>
      var rows := InsertAll(s.rows, deliveries, Stamp(s.clock));
      s.(rows := rows, log := Opening(rows, s.log))
    case Tick(time) => s.(clock := time)
    case Claim(keys) =>
      s.(rows := ClaimAll(s.rows, keys, Stamp(s.clock), Stamp(s.clock + p.config.leaseDuration)), batch := keys)
    case Block =>
      var k := s.batch[0];
      s.(rows := s.rows[k := FailRow(p.config, s.rows[k], false, s.clock)],
         log := s.log[k := s.log[k].(skipped := s.log[k].skipped + 1)],
         batch := s.batch[1..])
    case Send(outcome) =>
      var k := s.batch[0];
      s.(sent := Some(outcome), log := s.log[k := AfterSend(s.log[k], outcome)])
    case Mark =>
      s.(rows := s.rows[s.batch[0] := MarkedRow(p, s)], sent := None, batch := s.batch[1..])
    case Stop =>
      s.(batch := [], sent := None, log := map k | k in s.log :: AfterStop(s, k, s.log[k]))
  }

  /** A finite run: every action is enabled where it happens. */
  ghost predicate Runs(p: Params, s: State, trace: seq<Action>)
    decreases |trace|
  {
    trace != [] ==> Enabled(p, s, trace[0]) && Runs(p, Apply(p, s, trace[0]), trace[1..])
  }

  ghost function Final(p: Params, s: State, trace: seq<Action>): State
    requires Runs(p, s, trace)
    decreases |trace|
  {
    if trace == [] then s else Final(p, Apply(p, s, trace[0]), trace[1..])
  }

  ghost function Start(clock: int): State {
    State(map[], [], None, clock, map[])
  }

  /** Claimed by the current batch and not sent yet. */
  predicate Unsent(s: State, k: string) {
    k in s.batch && !(k == s.batch[0] && s.sent.Some?)
  }

  /** Accepted by the messenger with the mark still to come. */
  predicate Unmarked(s: State, k: string) {
    s.batch != [] && k == s.batch[0] && s.sent.Some? && s.sent.value.Accepted?
  }

  /** The status rules of one row. */
  ghost predicate RowRules(p: Params, row: Row) {
    && row.attempts <= p.config.maxAttempts
    && (row.status == Pending ==> row.attempts < p.config.maxAttempts && row.retryable && row.lease.None?)
    && (row.status == Processing ==> row.attempts >= 1 && row.lease.Some?)
    && (row.status == Delivered ==> row.attempts >= 1 && row.lease.None? && row.messageId.Some?)
    && (row.status == Failed ==> row.attempts >= 1 && !row.retryable && row.lease.None?)
  }

  /** The account of one delivery: every claim is a send, a skip or still to be sent; every
      acceptance is recorded, lost, unheard or still to be recorded. */
  ghost predicate Balanced(p: Params, s: State, k: string)
    requires k in s.rows && k in s.log
  {
    var row, t := s.rows[k], s.log[k];
    && row.attempts == t.sends + t.skipped + (if Unsent(s, k) then 1 else 0)
    && t.accepted == t.lost + t.unheard + (if row.status == Delivered then 1 else 0) + (if Unmarked(s, k) then 1 else 0)
    && t.accepted + t.refused <= t.sends
    && (k in s.batch && k == s.batch[0] && s.sent == Some(Rejected(false)) ==> t.refused >= 1)
    && (k in s.batch && k == s.batch[0] && s.sent == Some(Unheard(false)) ==> t.unheard >= 1)
    && (row.status == Failed ==>
          t.refused >= 1 || t.unheard >= 1 || row.attempts == p.config.maxAttempts || !Allows(p.syntax, p.policy, row.recipient))
    && (t.sends > 0 ==> Allows(p.syntax, p.policy, row.recipient))
  }

  ghost predicate Invariant(p: Params, s: State) {
    && s.log.Keys == s.rows.Keys
    && NoDuplicates(s.batch)
    && (s.batch == [] ==> s.sent.None?)
    && (forall k | k in s.batch :: k in s.rows && s.rows[k].status == Processing)
    && (forall k | k in s.rows :: RowRules(p, s.rows[k]) && Balanced(p, s, k))
  }

  lemma EnqueueKeeps(p: Params, s: State, deliveries: seq<Delivery>)
    requires ValidParams(p) && Invariant(p, s)
    ensures Invariant(p, Apply(p, s, Enqueue(deliveries)))
  {
    InsertAllEffect(s.rows, deliveries, Stamp(s.clock));
  }

  lemma ClaimKeeps(p: Params, s: State, keys: seq<string>)
    requires ValidParams(p) && Invariant(p, s) && Enabled(p, s, Claim(keys))
    ensures Invariant(p, Apply(p, s, Claim(keys)))
  {
    var s' := Apply(p, s, Claim(keys));
    forall k | k in s'.rows ensures RowRules(p, s'.rows[k]) && Balanced(p, s', k) {
      assert RowRules(p, s.rows[k]) && Balanced(p, s, k);
    }
  }

  lemma SendKeeps(p: Params, s: State, outcome: Outcome)
    requires ValidParams(p) && Invariant(p, s) && Enabled(p, s, Send(outcome))
    ensures Invariant(p, Apply(p, s, Send(outcome)))
  {
    var s' := Apply(p, s, Send(outcome));
    forall k | k in s'.rows ensures RowRules(p, s'.rows[k]) && Balanced(p, s', k) {
      assert RowRules(p, s.rows[k]) && Balanced(p, s, k);
    }
  }

  /** The rest of a batch without duplicates no longer holds the head. */
  lemma Tail(batch: seq<string>)
    requires batch != [] && NoDuplicates(batch)
    ensures NoDuplicates(batch[1..]) && batch[0] !in batch[1..]
    ensures forall k | k != batch[0] :: k in batch[1..] <==> k in batch
  {
    forall k | k in batch && k != batch[0] ensures k in batch[1..] {
      var i :| 0 <= i < |batch| && batch[i] == k;
      assert batch[1..][i - 1] == k;
    }
  }

  lemma BlockKeeps(p: Params, s: State)
    requires ValidParams(p) && Invariant(p, s) && Enabled(p, s, Block)
    ensures Invariant(p, Apply(p, s, Block))
  {
    Tail(s.batch);
    var s' := Apply(p, s, Block);
    forall k | k in s'.rows ensures RowRules(p, s'.rows[k]) && Balanced(p, s', k) {
      assert RowRules(p, s.rows[k]) && Balanced(p, s, k);
    }
  }

  lemma MarkKeeps(p: Params, s: State)
    requires ValidParams(p) && Invariant(p, s) && Enabled(p, s, Mark)
    ensures Invariant(p, Apply(p, s, Mark))
  {
    Tail(s.batch);
    var s' := Apply(p, s, Mark);
    forall k | k in s'.rows ensures RowRules(p, s'.rows[k]) && Balanced(p, s', k) {
      assert RowRules(p, s.rows[k]) && Balanced(p, s, k);
    }
  }

  lemma StopKeeps(p: Params, s: State)
    requires ValidParams(p) && Invariant(p, s)
    ensures Invariant(p, Apply(p, s, Stop))
  {
    var s' := Apply(p, s, Stop);
    forall k | k in s'.rows ensures RowRules(p, s'.rows[k]) && Balanced(p, s', k) {
      assert RowRules(p, s.rows[k]) && Balanced(p, s, k);
    }
  }

  lemma StepKeeps(p: Params, s: State, a: Action)
    requires ValidParams(p) && Invariant(p, s) && Enabled(p, s, a)
    ensures Invariant(p, Apply(p, s, a))
  {
    match a
    case Enqueue(deliveries) => EnqueueKeeps(p, s, deliveries);
    case Tick(time) =>
      assert forall k | k in s.rows :: Balanced(p, s, k) ==> Balanced(p, Apply(p, s, a), k);
    case Claim(keys) => ClaimKeeps(p, s, keys);
    case Block => BlockKeeps(p, s);
    case Send(outcome) => SendKeeps(p, s, outcome);
    case Mark => MarkKeeps(p, s);
    case Stop => StopKeeps(p, s);
  }

  /** Safety over whole runs: the status rules and the accounts hold in every reachable state. */
  lemma {:induction false} RunKeeps(p: Params, s: State, trace: seq<Action>)
    requires ValidParams(p) && Invariant(p, s) && Runs(p, s, trace)
    ensures Invariant(p, Final(p, s, trace))
    decreases |trace|
  {
    if trace != [] {
      StepKeeps(p, s, trace[0]);
      RunKeeps(p, Apply(p, s, trace[0]), trace[1..]);
    }
  }

  // Final statuses

  predicate Settled(row: Row) {
    row.status == Delivered || row.status == Failed
  }

  lemma StepSettled(p: Params, s: State, a: Action, k: string)
    requires ValidParams(p) && Invariant(p, s) && Enabled(p, s, a)
    requires k in s.rows && Settled(s.rows[k])
    ensures var s' := Apply(p, s, a); k in s'.rows && s'.rows[k] == s.rows[k] && k in s'.log && s'.log[k] == s.log[k]
  {
    StepKeeps(p, s, a);
    assert RowRules(p, s.rows[k]);
    if a.Enqueue? {
      InsertAllEffect(s.rows, a.deliveries, Stamp(s.clock));
    }
  }

  /** Delivered and failed are final: whatever happens later, a settled row is never claimed, sent or
      marked again, and nothing of its record changes. */
  lemma {:induction false} SettledForever(p: Params, s: State, trace: seq<Action>, k: string)
    requires ValidParams(p) && Invariant(p, s) && Runs(p, s, trace)
    requires k in s.rows && Settled(s.rows[k])
    ensures var s' := Final(p, s, trace);
            k in s'.rows && s'.rows[k] == s.rows[k] && k in s'.log && s'.log[k] == s.log[k] && k !in s'.batch
    decreases |trace|
  {
    if trace != [] {
      StepKeeps(p, s, trace[0]);
      StepSettled(p, s, trace[0], k);
      SettledForever(p, Apply(p, s, trace[0]), trace[1..], k);
    }
  }

  /** A remark: the table alone does not protect a settled row. The statement that marks a failure does not
      look at the status, so what it makes of a row depends on the failure and the attempts only. */
  lemma MarkIgnoresStatus(config: Config, row: Row, retryable: bool, now: int)
    ensures FailRow(config, row, retryable, now).status == Pending <==> retryable && row.attempts < config.maxAttempts
  {}

  /** What a reachable state says about one delivery: sends never exceed claims nor claims the limit,
      the failed branch of the claim condition never fires, the messenger accepted it at most once more
      than acceptances were lost or not heard, and it was only ever sent to an allowed address. */
  lemma Safety(p: Params, clock: int, trace: seq<Action>, k: string)
    requires ValidParams(p) && Runs(p, Start(clock), trace)
    requires k in Final(p, Start(clock), trace).rows
    ensures var s := Final(p, Start(clock), trace);
            && k in s.log
            && s.log[k].sends <= s.rows[k].attempts <= p.config.maxAttempts
            && !(s.rows[k].status == Failed && s.rows[k].retryable)
            && s.log[k].accepted <= 1 + s.log[k].lost + s.log[k].unheard
            && (s.rows[k].status == Delivered ==> s.log[k].accepted == 1 + s.log[k].lost + s.log[k].unheard)
            && (s.log[k].sends > 0 ==> Allows(p.syntax, p.policy, s.rows[k].recipient))
            && (s.rows[k].status == Failed ==>
                  || s.log[k].refused > 0
                  || s.log[k].unheard > 0
                  || s.rows[k].attempts == p.config.maxAttempts
                  || !Allows(p.syntax, p.policy, s.rows[k].recipient))
  {
    RunKeeps(p, Start(clock), trace);
    var s := Final(p, Start(clock), trace);
    assert RowRules(p, s.rows[k]) && Balanced(p, s, k);
  }

  // Progress

  function Credit(p: Params, row: Row): nat {
    if row.attempts <= p.config.maxAttempts then p.config.maxAttempts - row.attempts else 0
  }

  function Credits(p: Params): Row -> nat {
    (row: Row) => Credit(p, row)
  }

  function Attempts(): Row -> nat {
    (row: Row) => row.attempts
  }

  function Sends(): Tally -> nat {
    (t: Tally) => t.sends
  }

  /** The number of rows claimed in a run, with repetitions. */
  function Claimed(trace: seq<Action>): nat {
    if trace == [] then 0
    else (if trace[0].Claim? then |trace[0].keys| else 0) + Claimed(trace[1..])
  }

  function SendCount(trace: seq<Action>): nat {
    if trace == [] then 0
    else (if trace[0].Send? then 1 else 0) + SendCount(trace[1..])
  }

  /** From s to s', n claims were paid from the credit of s and of the rows added since. */
  ghost predicate Paid(p: Params, s: State, s': State, n: nat)
    requires ValidParams(p)
  {
    && |s'.rows| >= |s.rows|
    && Total(s'.rows, Credits(p)) + n == Total(s.rows, Credits(p)) + Times(p.config.maxAttempts, |s'.rows| - |s.rows|)
  }

  lemma PaidTwice(p: Params, s: State, mid: State, s': State, n: nat, m: nat)
    requires ValidParams(p) && Paid(p, s, mid, n) && Paid(p, mid, s', m)
    ensures Paid(p, s, s', n + m)
  {
    TimesSum(p.config.maxAttempts, |mid.rows| - |s.rows|, |s'.rows| - |mid.rows|);
  }

  lemma PaidByEnqueue(p: Params, s: State, deliveries: seq<Delivery>)
    requires ValidParams(p)
    ensures Paid(p, s, Apply(p, s, Enqueue(deliveries)), 0)
  {
    InsertAllEffect(s.rows, deliveries, Stamp(s.clock));
    var rows := InsertAll(s.rows, deliveries, Stamp(s.clock));
    TotalExtend(s.rows, rows, Credits(p), p.config.maxAttempts);
    GrownBy(s.rows, rows);
  }

  lemma CreditSpent(p: Params, rows: Rows, rows': Rows, taken: set<string>)
    requires rows.Keys == rows'.Keys && taken <= rows.Keys
    requires forall k | k in rows && k !in taken :: rows'[k].attempts == rows[k].attempts
    requires forall k | k in taken :: rows'[k].attempts == rows[k].attempts + 1 <= p.config.maxAttempts
    ensures |rows'| == |rows| && Total(rows', Credits(p)) + |taken| == Total(rows, Credits(p))
  {
    SameSize(rows, rows');
    SumRises(rows.Keys, rows', rows, Credits(p), taken);
  }

  lemma ClaimSpends(p: Params, rows: Rows, stamp: int, leaseUntil: int, keys: seq<string>)
    requires Selects(p.config.maxAttempts, rows, stamp, p.batchSize, keys)
    ensures var rows' := ClaimAll(rows, keys, stamp, leaseUntil);
            |rows'| == |rows| && Total(rows', Credits(p)) + |keys| == Total(rows, Credits(p))
  {
    DistinctCount(keys);
    CreditSpent(p, rows, ClaimAll(rows, keys, stamp, leaseUntil), set k | k in keys);
  }

  lemma PaidByClaim(p: Params, s: State, keys: seq<string>)
    requires ValidParams(p) && Enabled(p, s, Claim(keys))
    ensures Paid(p, s, Apply(p, s, Claim(keys)), |keys|)
  {
    ClaimSpends(p, s.rows, Stamp(s.clock), Stamp(s.clock + p.config.leaseDuration), keys);
  }

  lemma PaidUnchanged(p: Params, s: State, s': State)
    requires ValidParams(p) && s'.rows.Keys == s.rows.Keys
    requires forall k | k in s.rows :: s'.rows[k].attempts == s.rows[k].attempts
    ensures Paid(p, s, s', 0)
  {
    SameSize(s.rows, s'.rows);
    SumRises(s.rows.Keys, s.rows, s'.rows, Credits(p), {});
  }

  function ClaimedBy(a: Action): nat {
    if a.Claim? then |a.keys| else 0
  }

  lemma PaidByStep(p: Params, s: State, a: Action)
    requires ValidParams(p) && Invariant(p, s) && Enabled(p, s, a)
    ensures Paid(p, s, Apply(p, s, a), ClaimedBy(a))
  {
    match a
    case Enqueue(deliveries) => PaidByEnqueue(p, s, deliveries);
    case Claim(keys) => PaidByClaim(p, s, keys);
    case _ => PaidUnchanged(p, s, Apply(p, s, a));
  }

  /** Conservation of attempts: every claimed row spends exactly one unit of credit and every new row
      brings the configured maximum, so the credit left never goes up without new deliveries. */
  lemma {:induction false} CreditConserved(p: Params, s: State, trace: seq<Action>)
    requires ValidParams(p) && Invariant(p, s) && Runs(p, s, trace)
    ensures Paid(p, s, Final(p, s, trace), Claimed(trace))
    decreases |trace|
  {
    if trace == [] {
      PaidUnchanged(p, s, s);
    } else {
      var mid := Apply(p, s, trace[0]);
      StepKeeps(p, s, trace[0]);
      PaidByStep(p, s, trace[0]);
      CreditConserved(p, mid, trace[1..]);
      PaidTwice(p, s, mid, Final(p, mid, trace[1..]), ClaimedBy(trace[0]), Claimed(trace[1..]));
    }
  }

  lemma SendsOfNew(log: map<string, Tally>, log': map<string, Tally>)
    requires log.Keys <= log'.Keys
    requires forall k | k in log' :: log'[k] == if k in log then log[k] else NO_TALLY
    ensures Total(log', Sends()) == Total(log, Sends())
  {
    TotalExtend(log, log', Sends(), 0);
    TimesIsProduct(0, |log'.Keys - log.Keys|);
  }

  lemma SendsByEnqueue(p: Params, s: State, deliveries: seq<Delivery>)
    requires Invariant(p, s)
    ensures Total(Apply(p, s, Enqueue(deliveries)).log, Sends()) == Total(s.log, Sends())
  {
    InsertAllEffect(s.rows, deliveries, Stamp(s.clock));
    SendsOfNew(s.log, Opening(InsertAll(s.rows, deliveries, Stamp(s.clock)), s.log));
  }

  lemma SendsUnchanged(log: map<string, Tally>, log': map<string, Tally>, sent: set<string>)
    requires log.Keys == log'.Keys && sent <= log.Keys
    requires forall k | k in log :: log'[k].sends == log[k].sends + if k in sent then 1 else 0
    ensures Total(log', Sends()) == Total(log, Sends()) + |sent|
  {
    SumRises(log.Keys, log, log', Sends(), sent);
  }

  lemma SendStep(p: Params, s: State, a: Action)
    requires ValidParams(p) && Invariant(p, s) && Enabled(p, s, a)
    ensures Total(Apply(p, s, a).log, Sends()) == Total(s.log, Sends()) + if a.Send? then 1 else 0
  {
    match a
    case Enqueue(deliveries) => SendsByEnqueue(p, s, deliveries);
    case Send(_) => SendsUnchanged(s.log, Apply(p, s, a).log, {s.batch[0]});
    case _ => SendsUnchanged(s.log, Apply(p, s, a).log, {});
  }

  lemma {:induction false} SendsCounted(p: Params, s: State, trace: seq<Action>)
    requires ValidParams(p) && Invariant(p, s) && Runs(p, s, trace)
    ensures Total(Final(p, s, trace).log, Sends()) == Total(s.log, Sends()) + SendCount(trace)
    decreases |trace|
  {
    if trace != [] {
      var mid := Apply(p, s, trace[0]);
      StepKeeps(p, s, trace[0]);
      SendStep(p, s, trace[0]);
      SendsCounted(p, mid, trace[1..]);
    }
  }

  /** N deliveries cause at most N times the maximum of sends, however the run goes. */
  lemma BoundedSends(p: Params, clock: int, trace: seq<Action>)
    requires ValidParams(p) && Runs(p, Start(clock), trace)
    ensures SendCount(trace) <= p.config.maxAttempts * |Final(p, Start(clock), trace).rows|
  {
    var s0 := Start(clock);
    var s := Final(p, s0, trace);
    RunKeeps(p, s0, trace);
    SendsCounted(p, s0, trace);
    assert forall k | k in s.rows :: RowRules(p, s.rows[k]) && Balanced(p, s, k);
    SumCompare(s.rows.Keys, s.log, s.rows, Sends(), Attempts());
    TotalBound(s.rows, Attempts(), p.config.maxAttempts);
    TimesIsProduct(p.config.maxAttempts, |s.rows|);
  }

  lemma StepKeepsRows(p: Params, s: State, a: Action, k: string)
    requires ValidParams(p) && Invariant(p, s) && Enabled(p, s, a) && k in s.rows
    ensures var s' := Apply(p, s, a);
            k in s'.rows && s'.rows[k].attempts >= s.rows[k].attempts && s'.rows[k].recipient == s.rows[k].recipient
  {
    if a.Enqueue? {
      InsertAllEffect(s.rows, a.deliveries, Stamp(s.clock));
    }
  }

  /** The stamp from which an unsettled row may be claimed. */
  function Due(row: Row): int {
    if row.status == Processing && row.lease.Some? then row.lease.value else row.nextAttempt
  }

  /** Processing on the last attempt: no claim takes the row again. */
  predicate Exhausted(p: Params, row: Row) {
    row.status == Processing && row.attempts == p.config.maxAttempts
  }

  /** No delivery disappears: in every reachable state a stored delivery is settled, or may be claimed
      from a known moment on and never before it, or was claimed for the last time. */
  lemma {:induction false} NothingIsLost(p: Params, s: State, trace: seq<Action>, k: string)
    requires ValidParams(p) && Invariant(p, s) && Runs(p, s, trace) && k in s.rows
    ensures var s' := Final(p, s, trace);
            && k in s'.rows
            && (Settled(s'.rows[k]) || Exhausted(p, s'.rows[k])
                <==> !exists stamp :: Claimable(p.config.maxAttempts, s'.rows[k], stamp))
            && (!Settled(s'.rows[k]) && !Exhausted(p, s'.rows[k]) ==>
                  forall stamp :: Claimable(p.config.maxAttempts, s'.rows[k], stamp) <==> Due(s'.rows[k]) <= stamp)
    decreases |trace|
  {
    if trace == [] {
      var row := s.rows[k];
      assert RowRules(p, row);
      if !Settled(row) && !Exhausted(p, row) {
        assert Claimable(p.config.maxAttempts, row, Due(row));
      }
    } else {
      StepKeeps(p, s, trace[0]);
      StepKeepsRows(p, s, trace[0], k);
      NothingIsLost(p, Apply(p, s, trace[0]), trace[1..], k);
    }
  }

  /** An exhausted row that the worker no longer holds stays as it is for ever. */
  lemma {:induction false} StrandedForever(p: Params, s: State, trace: seq<Action>, k: string)
    requires ValidParams(p) && Invariant(p, s) && Runs(p, s, trace)
    requires k in s.rows && Exhausted(p, s.rows[k]) && k !in s.batch
    ensures var s' := Final(p, s, trace); k in s'.rows && s'.rows[k] == s.rows[k] && k !in s'.batch
    decreases |trace|
  {
    if trace != [] {
      StepKeeps(p, s, trace[0]);
      if trace[0].Enqueue? {
        InsertAllEffect(s.rows, trace[0].deliveries, Stamp(s.clock));
      }
      StrandedForever(p, Apply(p, s, trace[0]), trace[1..], k);
    }
  }

  // Fairness

  /** The attempts left of a row that does not sort after `mine`: how often it may still overtake it. */
  function Ahead(p: Params, mine: Row): Row -> nat {
    (row: Row) =>
      if !Settled(row) && !Before(mine, row) then Credit(p, row) else 0
  }

  /** Every row that is stored or rescheduled from now on sorts after this one: it was due before the
      present millisecond, or it was created before it and retries wait at least a millisecond. */
  predicate Established(p: Params, row: Row, stamp: int) {
    || row.nextAttempt < stamp
    || (row.nextAttempt == stamp && row.createdAt < stamp && p.config.retryDelay >= MILLISECOND)
  }

  /** Ready, not held by the worker, and established. */
  ghost predicate Waiting(p: Params, s: State, k: string) {
    && k in s.rows && k !in s.batch
    && Claimable(p.config.maxAttempts, s.rows[k], Stamp(s.clock))
    && Established(p, s.rows[k], Stamp(s.clock))
  }

  predicate Takes(a: Action, k: string) {
    a.Claim? && k in a.keys
  }

  function ClaimCount(trace: seq<Action>): nat {
    if trace == [] then 0 else (if trace[0].Claim? then 1 else 0) + ClaimCount(trace[1..])
  }

  lemma StampMonotone(a: int, b: int)
    requires a <= b
    ensures Stamp(a) <= Stamp(b)
  {}

  /** k still waits unchanged in s', and at least n attempts ahead of it have been used up. */
  ghost predicate Overtaken(p: Params, s: State, s': State, k: string, n: nat)
    requires k in s.rows
  {
    && Waiting(p, s', k) && s'.rows[k] == s.rows[k]
    && Total(s'.rows, Ahead(p, s.rows[k])) + n <= Total(s.rows, Ahead(p, s.rows[k]))
  }

  lemma ClaimedWereAhead(p: Params, mine: Row, rows: Rows, rows': Rows, taken: set<string>)
    requires ValidParams(p) && rows.Keys == rows'.Keys && taken <= rows.Keys
    requires forall j | j in rows && j !in taken :: rows'[j] == rows[j]
    requires forall j | j in taken :: !Settled(rows[j]) && !Before(mine, rows[j]) && rows[j].attempts < p.config.maxAttempts
    requires forall j | j in taken :: rows'[j].attempts == rows[j].attempts + 1
    ensures Total(rows', Ahead(p, mine)) + |taken| <= Total(rows, Ahead(p, mine))
  {
    SumDrops(rows.Keys, rows, rows', Ahead(p, mine), taken);
  }

  lemma SelectedWereAhead(max: int, rows: Rows, stamp: int, limit: int, keys: seq<string>, k: string)
    requires Selects(max, rows, stamp, limit, keys)
    requires k in rows && k !in keys && Claimable(max, rows[k], stamp)
    ensures |keys| == limit
    ensures forall j | j in keys :: j in rows && !Before(rows[k], rows[j]) && rows[j].attempts < max
  {
    forall j | j in keys ensures !Before(rows[k], rows[j]) {
      var i :| 0 <= i < |keys| && keys[i] == j;
      assert !Before(rows[k], rows[keys[i]]);
    }
  }

  lemma ClaimUsesUp(p: Params, rows: Rows, stamp: int, leaseUntil: int, keys: seq<string>, k: string)
    requires ValidParams(p) && Selects(p.config.maxAttempts, rows, stamp, p.batchSize, keys)
    requires forall j | j in keys :: j in rows && !Settled(rows[j])
    requires k in rows && k !in keys && Claimable(p.config.maxAttempts, rows[k], stamp)
    ensures var ahead := Ahead(p, rows[k]);
            Total(ClaimAll(rows, keys, stamp, leaseUntil), ahead) + p.batchSize <= Total(rows, ahead)
  {
    SelectedWereAhead(p.config.maxAttempts, rows, stamp, p.batchSize, keys, k);
    DistinctCount(keys);
    ClaimedWereAhead(p, rows[k], rows, ClaimAll(rows, keys, stamp, leaseUntil), set j | j in keys);
  }

  lemma OvertakenByClaim(p: Params, s: State, keys: seq<string>, k: string)
    requires ValidParams(p) && Invariant(p, s) && Enabled(p, s, Claim(keys))
    requires Waiting(p, s, k) && k !in keys
    ensures Overtaken(p, s, Apply(p, s, Claim(keys)), k, p.batchSize)
  {
    assert forall j | j in keys :: RowRules(p, s.rows[j]) && !Settled(s.rows[j]);
    ClaimUsesUp(p, s.rows, Stamp(s.clock), Stamp(s.clock + p.config.leaseDuration), keys, k);
  }

  lemma OvertakenByEnqueue(p: Params, s: State, deliveries: seq<Delivery>, k: string)
    requires ValidParams(p) && Invariant(p, s) && Waiting(p, s, k)
    ensures Overtaken(p, s, Apply(p, s, Enqueue(deliveries)), k, 0)
  {
    var rows := InsertAll(s.rows, deliveries, Stamp(s.clock));
    InsertAllEffect(s.rows, deliveries, Stamp(s.clock));
    TotalExtend(s.rows, rows, Ahead(p, s.rows[k]), 0);
    TimesIsProduct(0, |rows.Keys - s.rows.Keys|);
  }

  lemma AheadFalls(p: Params, mine: Row, rows: Rows, head: string, row: Row)
    requires head in rows
    requires row == rows[head] || Settled(row) || Before(mine, row)
    ensures Total(rows[head := row], Ahead(p, mine)) <= Total(rows, Ahead(p, mine))
  {
    var rows' := rows[head := row];
    assert rows'.Keys == rows.Keys;
    SumDrops(rows.Keys, rows, rows', Ahead(p, mine), {});
  }

  lemma OvertakenByMark(p: Params, s: State, a: Action, k: string)
    requires ValidParams(p) && Invariant(p, s) && Enabled(p, s, a) && (a.Mark? || a.Block?)
    requires p.config.retryDelay < Backoff.INT64_LIMIT / 2
    requires Waiting(p, s, k)
    ensures Overtaken(p, s, Apply(p, s, a), k, 0)
  {
    var head := s.batch[0];
    Tail(s.batch);
    Backoff.AtLeastFloor(p.config.retryDelay, s.rows[head].attempts, if p.config.retryDelay >= MILLISECOND then MILLISECOND else 1);
    StampMonotone(s.clock, s.clock + Backoff.Delay(p.config.retryDelay, s.rows[head].attempts));
    AheadFalls(p, s.rows[k], s.rows, head, Apply(p, s, a).rows[head]);
  }

  lemma OvertakenByStep(p: Params, s: State, a: Action, k: string)
    requires ValidParams(p) && Invariant(p, s) && Enabled(p, s, a)
    requires p.config.retryDelay < Backoff.INT64_LIMIT / 2
    requires Waiting(p, s, k) && !Takes(a, k)
    ensures Overtaken(p, s, Apply(p, s, a), k, if a.Claim? then p.batchSize else 0)
  {
    match a
    case Enqueue(deliveries) => OvertakenByEnqueue(p, s, deliveries, k);
    case Claim(keys) => OvertakenByClaim(p, s, keys, k);
    case Mark => OvertakenByMark(p, s, a, k);
    case Block => OvertakenByMark(p, s, a, k);
    case Tick(time) => StampMonotone(s.clock, time);
    case _ =>
  }

  lemma OvertakenTwice(p: Params, s: State, mid: State, s': State, k: string, n: nat, m: nat)
    requires k in s.rows && k in mid.rows && Overtaken(p, s, mid, k, n) && Overtaken(p, mid, s', k, m)
    ensures Overtaken(p, s, s', k, n + m)
  {}

  lemma {:induction false} OvertakenByRun(p: Params, s: State, trace: seq<Action>, k: string)
    requires ValidParams(p) && Invariant(p, s) && Runs(p, s, trace)
    requires p.config.retryDelay < Backoff.INT64_LIMIT / 2
    requires Waiting(p, s, k) && forall a | a in trace :: !Takes(a, k)
    ensures Overtaken(p, s, Final(p, s, trace), k, Times(p.batchSize, ClaimCount(trace)))
    decreases |trace|
  {
    if trace != [] {
      var mid := Apply(p, s, trace[0]);
      var n := if trace[0].Claim? then p.batchSize else 0;
      StepKeeps(p, s, trace[0]);
      OvertakenByStep(p, s, trace[0], k);
      OvertakenByRun(p, mid, trace[1..], k);
      OvertakenTwice(p, s, mid, Final(p, mid, trace[1..]), k, n, Times(p.batchSize, ClaimCount(trace[1..])));
    }
  }

  /** No starvation: a waiting delivery is claimed before the number of claims, times the batch size,
      exceeds the attempts left ahead of it; deliveries that arrive or are rescheduled later never
      count, because they never sort ahead. */
  lemma {:induction false} NoStarvation(p: Params, s: State, trace: seq<Action>, k: string)
    requires ValidParams(p) && Invariant(p, s) && Runs(p, s, trace)
    requires p.config.retryDelay < Backoff.INT64_LIMIT / 2
    requires Waiting(p, s, k)
    requires p.batchSize * ClaimCount(trace) > Total(s.rows, Ahead(p, s.rows[k]))
    ensures exists a | a in trace :: Takes(a, k)
  {
    if forall a | a in trace :: !Takes(a, k) {
      OvertakenByRun(p, s, trace, k);
      TimesIsProduct(p.batchSize, ClaimCount(trace));
    }
  }
}
