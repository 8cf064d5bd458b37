/** The deliveries and pipeline-state tables of the SQLite store, and the statements that change them.
    Times are nanoseconds; a stored time is the millisecond stamp that the fixed-width text of
    module Timestamps keeps, so comparing stamps is comparing the stored texts. */
module Outbox {
  import opened Base
  import Backoff

  const MILLISECOND := 1_000_000
  const DEFAULT_LEASE := 300_000_000_000
  const DEFAULT_MAX_ATTEMPTS := 5
  const DEFAULT_RETRY_DELAY := 1_000_000_000
  const DEFAULT_LIMIT := 10

  function Stamp(time: int): int {
    time / MILLISECOND
  }

  datatype Config = Config(leaseDuration: int, maxAttempts: int, retryDelay: int)

  /** The settings a store works with: non-positive ones are replaced when it is opened. */
  function Opened(config: Config): (effective: Config)
    ensures effective.leaseDuration > 0 && effective.maxAttempts > 0 && effective.retryDelay > 0
    ensures config.leaseDuration > 0 && config.maxAttempts > 0 && config.retryDelay > 0 ==> effective == config
  {
    Config(
      if config.leaseDuration <= 0 then DEFAULT_LEASE else config.leaseDuration,
      if config.maxAttempts <= 0 then DEFAULT_MAX_ATTEMPTS else config.maxAttempts,
      if config.retryDelay <= 0 then DEFAULT_RETRY_DELAY else config.retryDelay)
  }

  /** What replaces a setting: five minutes, five attempts, one second. */
  lemma OpenedExactly(config: Config)
    ensures Opened(config) ==
              Config(if config.leaseDuration > 0 then config.leaseDuration else 300_000_000_000,
                     if config.maxAttempts > 0 then config.maxAttempts else 5,
                     if config.retryDelay > 0 then config.retryDelay else 1_000_000_000)
  {}

  datatype Status = Pending | Processing | Delivered | Failed

  /** One row of the deliveries table; the notification payload is reduced to its recipient. */
  datatype Row = Row(
    recipient: string,
    status: Status,
    attempts: nat,
    retryable: bool,
    nextAttempt: int,
    lease: Option<int>,
    messageId: Option<string>,
    createdAt: int,
    updatedAt: int)

  type Rows = map<string, Row>

  datatype Delivery = Delivery(key: string, recipient: string)

  datatype PipelineState = PipelineState(status: string, recipients: seq<string>)

  datatype PipelineUpdate = PipelineUpdate(correlationKey: string, state: PipelineState)

  function FreshRow(recipient: string, stamp: int): Row {
    Row(recipient, Pending, 0, true, stamp, None, None, stamp, stamp)
  }

  /** INSERT OR IGNORE of one delivery, skipped without a key or a recipient. */
  function Insert(rows: Rows, delivery: Delivery, stamp: int): Rows {
    if delivery.key == "" || delivery.recipient == "" || delivery.key in rows then rows
    else rows[delivery.key := FreshRow(delivery.recipient, stamp)]
  }

  function InsertAll(rows: Rows, deliveries: seq<Delivery>, stamp: int): Rows {
    if deliveries == [] then rows
    else Insert(InsertAll(rows, deliveries[..|deliveries| - 1], stamp), deliveries[|deliveries| - 1], stamp)
  }

  function WritePipeline(pipelines: map<string, PipelineState>, update: Option<PipelineUpdate>): map<string, PipelineState> {
    match update
    case None => pipelines
    case Some(u) => pipelines[u.correlationKey := u.state]
  }

  /** The readiness condition that both statements of Claim repeat. */
  predicate Claimable(maxAttempts: int, row: Row, stamp: int) {
    || (row.status == Pending && row.nextAttempt <= stamp && row.attempts < maxAttempts)
    || (row.status == Failed && row.retryable && row.nextAttempt <= stamp && row.attempts < maxAttempts)
    || (row.status == Processing && row.lease.Some? && row.lease.value <= stamp && row.attempts < maxAttempts)
  }

  /** ORDER BY next_attempt_at, created_at */
  predicate Before(a: Row, b: Row) {
    a.nextAttempt < b.nextAttempt || (a.nextAttempt == b.nextAttempt && a.createdAt < b.createdAt)
  }

  /** What the SELECT ... ORDER BY ... LIMIT of Claim may return; ties come in any order. */
  ghost predicate Selects(maxAttempts: int, rows: Rows, stamp: int, limit: int, keys: seq<string>) {
    && NoDuplicates(keys)
    && |keys| <= limit
    && (forall k | k in keys :: k in rows && Claimable(maxAttempts, rows[k], stamp))
    && (forall i, j | 0 <= i < j < |keys| :: !Before(rows[keys[j]], rows[keys[i]]))
    && (forall k | k in rows && k !in keys && Claimable(maxAttempts, rows[k], stamp) ::
          |keys| == limit && forall i | 0 <= i < |keys| :: !Before(rows[k], rows[keys[i]]))
  }

  function ClaimRow(row: Row, stamp: int, leaseUntil: int): Row {
    row.(status := Processing, attempts := row.attempts + 1, lease := Some(leaseUntil), updatedAt := stamp)
  }

  function ClaimAll(rows: Rows, keys: seq<string>, stamp: int, leaseUntil: int): Rows {
    map k | k in rows :: if k in keys then ClaimRow(rows[k], stamp, leaseUntil) else rows[k]
  }

  function DeliverRow(row: Row, messageId: string, stamp: int): Row {
    row.(status := Delivered, lease := None, messageId := Some(messageId), updatedAt := stamp)
  }

  function FailRow(config: Config, row: Row, retryable: bool, now: int): Row {
    var again := retryable && row.attempts < config.maxAttempts;
    row.(status := if again then Pending else Failed,
         retryable := again,
         nextAttempt := Stamp(if again then now + Backoff.Delay(config.retryDelay, row.attempts) else now),
         lease := None,
         updatedAt := Stamp(now))
  }

  // What the stored times mean

  /** A claimed row may be claimed again from the end of its lease on and not before, while attempts remain. */
  lemma LeaseHonoured(config: Config, row: Row, time: int, later: int)
    requires 0 <= row.attempts
    ensures var claimed := ClaimRow(row, Stamp(time), Stamp(time + config.leaseDuration));
            Claimable(config.maxAttempts, claimed, Stamp(later))
            <==> row.attempts + 1 < config.maxAttempts && Stamp(time + config.leaseDuration) <= Stamp(later)
  {}

  /** A new row may be claimed from the moment it is stored on. */
  lemma FreshIsDue(config: Config, recipient: string, time: int, later: int)
    requires config.maxAttempts > 0
    ensures Claimable(config.maxAttempts, FreshRow(recipient, Stamp(time)), Stamp(later)) <==> Stamp(time) <= Stamp(later)
  {}

  /** A retryable failure with attempts left waits the doubled delay, whatever the configured one. */
  lemma RetryWaits(config: Config, row: Row, now: int)
    requires 0 < config.retryDelay < Backoff.INT64_LIMIT && 1 <= row.attempts < config.maxAttempts
    ensures var failed, n := FailRow(config, row, true, now), row.attempts - 1;
            var wait := if Backoff.Capped(config.retryDelay, n) then Backoff.HOUR else Backoff.Wrap64(config.retryDelay * Backoff.Pow2(n));
            failed.status == Pending && failed.nextAttempt == Stamp(now + wait)
  {
    Backoff.DoubledMeaning(config.retryDelay, row.attempts - 1);
  }

  /** For a configured delay within the hour that is the capped power of two, and the row may be claimed
      again exactly from then on. */
  lemma RetryDue(config: Config, row: Row, now: int, later: int)
    requires 0 < config.retryDelay <= 3_600_000_000_000 && 1 <= row.attempts < config.maxAttempts
    ensures var failed := FailRow(config, row, true, now);
            var due := Stamp(now + Backoff.Min(config.retryDelay * Backoff.Pow2(row.attempts - 1), 3_600_000_000_000));
            && failed.nextAttempt == due && failed.attempts == row.attempts && failed.lease.None?
            && (Claimable(config.maxAttempts, failed, Stamp(later)) <==> due <= Stamp(later))
  {
    Backoff.ClosedForm(config.retryDelay, row.attempts);
  }

  /** Any other failure is for good. */
  lemma FailureIsFinal(config: Config, row: Row, retryable: bool, now: int, later: int)
    requires !retryable || row.attempts >= config.maxAttempts
    ensures var failed := FailRow(config, row, retryable, now);
            failed.status == Failed && !Claimable(config.maxAttempts, failed, Stamp(later))
  {}

  function Keys(deliveries: seq<Delivery>): (keys: seq<string>)
    ensures |keys| == |deliveries|
    ensures forall i | 0 <= i < |keys| :: keys[i] == deliveries[i].key
  {
    seq(|deliveries|, i requires 0 <= i < |deliveries| => deliveries[i].key)
  }

  lemma {:induction false} InsertAllEffect(rows: Rows, deliveries: seq<Delivery>, stamp: int)
    ensures var after := InsertAll(rows, deliveries, stamp);
            && (forall k | k in rows :: k in after && after[k] == rows[k])
            && (forall k | k in after && k !in rows ::
                  exists d | d in deliveries :: d.key == k != "" && d.recipient != "" && after[k] == FreshRow(d.recipient, stamp))
            && (forall d | d in deliveries && d.key != "" && d.recipient != "" :: d.key in after)
  {
    if deliveries != [] {
      var front, last := deliveries[..|deliveries| - 1], deliveries[|deliveries| - 1];
      InsertAllEffect(rows, front, stamp);
      assert deliveries == front + [last];
      assert forall d | d in deliveries :: d in front || d == last;
      assert forall d | d in front :: d in deliveries;
      assert last in deliveries;
    }
  }

  class Store {
    const config: Config
    var rows: Rows
    var pipelines: map<string, PipelineState>

    constructor (config: Config)
      ensures this.config == Opened(config) && rows == map[] && pipelines == map[]
    {
      this.config := Opened(config);
      rows, pipelines := map[], map[];
    }

    /** Stores the deliveries of one event and its pipeline memory in one transaction. */
    method Enqueue(eventKey: string, deliveries: seq<Delivery>, update: Option<PipelineUpdate>, now: int)
      returns (stored: bool)
      modifies this
      ensures stored == (eventKey != "")
      ensures !stored ==> rows == old(rows) && pipelines == old(pipelines)
      ensures stored ==> rows == InsertAll(old(rows), deliveries, Stamp(now))
      ensures stored ==> pipelines == WritePipeline(old(pipelines), update)
    {
      if eventKey == "" {
        return false;
      }
      var i := 0;
      while i < |deliveries|
        invariant 0 <= i <= |deliveries|
        invariant rows == InsertAll(old(rows), deliveries[..i], Stamp(now))
        invariant pipelines == old(pipelines)
      {
        assert deliveries[..i + 1][..i] == deliveries[..i];
        var delivery := deliveries[i];
        i := i + 1;
        if delivery.key == "" || delivery.recipient == "" {
          continue;
        }
        if delivery.key !in rows {
          rows := rows[delivery.key := FreshRow(delivery.recipient, Stamp(now))];
        }
      }
      assert deliveries[..i] == deliveries;
      if update.Some? {
        pipelines := pipelines[update.value.correlationKey := update.value.state];
      }
      return true;
    }

    /** A first key in the claim order. */
    method First(ready: set<string>) returns (first: string)
      requires ready != {} && ready <= rows.Keys
      ensures first in ready && forall k | k in ready :: !Before(rows[k], rows[first])
    {
      first :| first in ready;
      var rest := ready - {first};
      while rest != {}
        invariant rest <= ready && first in ready
        invariant forall k | k in ready - rest :: !Before(rows[k], rows[first])
        decreases rest
      {
        var k :| k in rest;
        if Before(rows[k], rows[first]) {
          first := k;
        }
        rest := rest - {k};
      }
    }

    /** The SELECT of Claim. */
    method Select(stamp: int, limit: int) returns (keys: seq<string>)
      requires limit > 0
      ensures Selects(config.maxAttempts, rows, stamp, limit, keys)
    {
      keys := [];
      var ready := set k | k in rows && Claimable(config.maxAttempts, rows[k], stamp);
      while |keys| < limit && ready != {}
        invariant |keys| <= limit && NoDuplicates(keys)
        invariant forall k :: k in ready <==> k in rows && Claimable(config.maxAttempts, rows[k], stamp) && k !in keys
        invariant forall k | k in keys :: k in rows && Claimable(config.maxAttempts, rows[k], stamp)
        invariant forall i, j | 0 <= i < j < |keys| :: !Before(rows[keys[j]], rows[keys[i]])
        invariant forall i, k | 0 <= i < |keys| && k in ready :: !Before(rows[k], rows[keys[i]])
        decreases ready
      {
        var k := First(ready);
        keys := keys + [k];
        ready := ready - {k};
      }
    }

    /** Leases the first ready deliveries and counts the attempt. */
    method Claim(requested: int, now: int) returns (claimed: seq<Delivery>)
      modifies this`rows
      ensures Selects(config.maxAttempts, old(rows), Stamp(now), if requested <= 0 then DEFAULT_LIMIT else requested, Keys(claimed))
      ensures rows == ClaimAll(old(rows), Keys(claimed), Stamp(now), Stamp(now + config.leaseDuration))
      ensures forall d | d in claimed :: d.key in old(rows) && d.recipient == old(rows)[d.key].recipient
    {
      var limit := if requested <= 0 then DEFAULT_LIMIT else requested;
      var stamp, leaseUntil := Stamp(now), Stamp(now + config.leaseDuration);
      var selected := Select(stamp, limit);
      claimed := [];
      var i := 0;
      while i < |selected|
        invariant 0 <= i <= |selected|
        invariant Keys(claimed) == selected[..i]
        invariant rows == ClaimAll(old(rows), selected[..i], stamp, leaseUntil)
        invariant forall d | d in claimed :: d.key in old(rows) && d.recipient == old(rows)[d.key].recipient
      {
        var key := selected[i];
        assert key !in selected[..i];
        assert selected[..i + 1] == selected[..i] + [key];
        i := i + 1;
        if !Claimable(config.maxAttempts, rows[key], stamp) {
          continue;
        }
        rows := rows[key := ClaimRow(rows[key], stamp, leaseUntil)];
        claimed := claimed + [Delivery(key, rows[key].recipient)];
      }
      assert selected[..i] == selected;
    }

    method MarkDelivered(key: string, messageId: string, now: int) returns (marked: bool)
      modifies this`rows
      ensures marked == (key != "" && key in old(rows))
      ensures rows == if marked then old(rows)[key := DeliverRow(old(rows)[key], messageId, Stamp(now))] else old(rows)
    {
      if key == "" || key !in rows {
        return false;
      }
      rows := rows[key := DeliverRow(rows[key], messageId, Stamp(now))];
      return true;
    }

    /** Schedules another attempt or gives the delivery up. */
    method MarkFailed(key: string, retryable: bool, now: int) returns (marked: bool)
      modifies this`rows
      ensures marked == (key != "" && key in old(rows))
      ensures rows == if marked then old(rows)[key := FailRow(config, old(rows)[key], retryable, now)] else old(rows)
      ensures marked && retryable && 1 <= old(rows)[key].attempts < config.maxAttempts && 0 < config.retryDelay <= Backoff.HOUR ==>
                && rows[key].status == Pending
                && rows[key].nextAttempt == Stamp(now + Backoff.Min(config.retryDelay * Backoff.Pow2(old(rows)[key].attempts - 1), Backoff.HOUR))
    {
      if key == "" || key !in rows {
        return false;
      }
      var row := rows[key];
      if retryable && 1 <= row.attempts < config.maxAttempts && 0 < config.retryDelay <= Backoff.HOUR {
        RetryDue(config, row, now, now);
      }
      var status, nextAttempt := Failed, now;
      if retryable && row.attempts < config.maxAttempts {
        status := Pending;
        var backoff := Backoff.Compute(config.retryDelay, row.attempts);
        nextAttempt := now + backoff;
      }
      rows := rows[key := row.(status := status,
                               retryable := retryable && row.attempts < config.maxAttempts,
                               nextAttempt := Stamp(nextAttempt),
                               lease := None,
                               updatedAt := Stamp(now))];
      return true;
    }

    /** The remembered pipeline outcome, if any. */
    method Get(correlationKey: string) returns (state: Option<PipelineState>)
      ensures state == if correlationKey in pipelines then Some(pipelines[correlationKey]) else None
    {
      if correlationKey in pipelines {
        return Some(pipelines[correlationKey]);
      }
      return None;
    }
  }
}
