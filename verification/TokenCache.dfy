/** The access-token cache of the messenger client: any number of callers, a fast check, a second check
    behind tokenMu, and one fetch at a time. What happens under mu is one step. */
module TokenCache {
  import opened Base

  const SECOND := 1_000_000_000
  const DEFAULT_LIFETIME := 7200 * SECOND
  const DEFAULT_MARGIN := 60 * SECOND

  /** The margin a client works with. */
  function Margin(configured: int): (margin: int)
    ensures margin == if configured > 0 then configured else 60_000_000_000
  {
    if configured <= 0 then DEFAULT_MARGIN else configured
  }

  function Lifetime(seconds: int): (lifetime: int)
    ensures lifetime > 0
  {
    if seconds <= 0 then DEFAULT_LIFETIME else seconds * SECOND
  }

  function Expiry(margin: int, stamp: int, lifetime: int): int {
    if lifetime > margin then stamp + lifetime - margin else stamp + lifetime
  }

  /** Where a caller stands. A check is the time a caller that is not forced last looked at the cache. */
  datatype Caller =
    | Idle
    | Checking(force: bool, now: int)
    | Waiting(force: bool)
    | Entered
    | Rechecking(now: int)
    | Fetching(check: Option<int>)
    | Answered(check: Option<int>, token: string, lifetime: int)
    | Publishing(check: Option<int>, token: string, lifetime: int, stamp: int)
    | Leaving

  /** A successful fetch; check is None when it was forced. */
  datatype Fetch = Fetch(check: Option<int>, token: string, lifetime: int, stamp: int, expires: int)

  /** A token handed out from the cache when that many fetches had been published. */
  datatype Served = Served(token: string, readAt: int, published: nat)

  datatype State = State(
    clock: int,
    token: string,
    expires: int,
    tokenMu: Option<nat>,
    callers: map<nat, Caller>,
    fetches: seq<Fetch>,
    served: seq<Served>)

  datatype Answer = Refused | Granted(token: string, seconds: int)

  datatype Action =
    | Tick(elapsed: nat)
    | Call(t: nat, force: bool)
    | CheckFast(t: nat)
    | Acquire(t: nat)
    | ReadAgain(t: nat)
    | CheckSlow(t: nat)
    | Reply(t: nat, answer: Answer)
    | ReadClock(t: nat)
    | Publish(t: nat)
    | Release(t: nat)

  function At(s: State, t: nat): Caller {
    if t in s.callers then s.callers[t] else Idle
  }

  function Moved(s: State, t: nat, c: Caller): State {
    s.(callers := s.callers[t := c])
  }

  predicate Fresh(s: State, now: int) {
    s.token != "" && now < s.expires
  }

  predicate Enabled(s: State, a: Action) {
    match a
    case Tick(_) => true
    case Call(t, _) => At(s, t).Idle?
    case CheckFast(t) => At(s, t).Checking?
    case Acquire(t) => At(s, t).Waiting? && s.tokenMu.None?
    case ReadAgain(t) => At(s, t).Entered?
    case CheckSlow(t) => At(s, t).Rechecking?
    case Reply(t, _) => At(s, t).Fetching?
    case ReadClock(t) => At(s, t).Answered?
    case Publish(t) => At(s, t).Publishing?
    case Release(t) => At(s, t).Leaving?
  }

  /** Hands out the cached token. */
  function Serve(s: State, now: int): State {
    s.(served := s.served + [Served(s.token, now, |s.fetches|)])
  }

  function Apply(margin: int, s: State, a: Action): State
    requires Enabled(s, a)
  {
    match a
    case Tick(elapsed) => s.(clock := s.clock + elapsed)
    case Call(t, force) => Moved(s, t, Checking(force, s.clock))
    case CheckFast(t) =>
      var c := At(s, t);
      if !c.force && Fresh(s, c.now) then Moved(Serve(s, c.now), t, Idle) else Moved(s, t, Waiting(c.force))
    case Acquire(t) =>
      Moved(s.(tokenMu := Some(t)), t, if At(s, t).force then Fetching(None) else Entered)
    case ReadAgain(t) => Moved(s, t, Rechecking(s.clock))
    case CheckSlow(t) =>
      var now := At(s, t).now;
      if Fresh(s, now) then Moved(Serve(s, now), t, Leaving) else Moved(s, t, Fetching(Some(now)))
    case Reply(t, answer) =>
      if answer.Refused? || answer.token == "" then Moved(s, t, Leaving)
      else Moved(s, t, Answered(At(s, t).check, answer.token, Lifetime(answer.seconds)))
    case ReadClock(t) =>
      var c := At(s, t);
      Moved(s, t, Publishing(c.check, c.token, c.lifetime, s.clock))
    case Publish(t) =>
      var c := At(s, t);
      var expires := Expiry(margin, c.stamp, c.lifetime);
      Moved(s.(token := c.token, expires := expires,
               fetches := s.fetches + [Fetch(c.check, c.token, c.lifetime, c.stamp, expires)]), t, Leaving)
    case Release(t) => Moved(s.(tokenMu := None), t, Idle)
  }

  /** A finite run: every action is enabled where it happens. */
  predicate Runs(margin: int, s: State, trace: seq<Action>)
    decreases |trace|
  {
    trace != [] ==> Enabled(s, trace[0]) && Runs(margin, Apply(margin, s, trace[0]), trace[1..])
  }

  function Final(margin: int, s: State, trace: seq<Action>): State
    requires Runs(margin, s, trace)
    decreases |trace|
  {
    if trace == [] then s else Final(margin, Apply(margin, s, trace[0]), trace[1..])
  }

  function Start(clock: int): State {
    State(clock, "", 0, None, map[], [], [])
  }

  // What every step keeps

  predicate Inside(c: Caller) {
    c.Entered? || c.Rechecking? || c.Fetching? || c.Answered? || c.Publishing? || c.Leaving?
  }

  /** A check that led to a fetch was made no later than now, and found no token or an expired one. */
  predicate Stale(token: string, expires: int, check: Option<int>, now: int) {
    check.Some? ==> check.value <= now && (token != "" ==> expires <= check.value)
  }

  predicate CallerRules(clock: int, token: string, expires: int, c: Caller) {
    match c
    case Checking(_, now) => now <= clock
    case Rechecking(now) => now <= clock
    case Fetching(check) => Stale(token, expires, check, clock)
    case Answered(check, got, lifetime) => Stale(token, expires, check, clock) && got != "" && lifetime > 0
    case Publishing(check, got, lifetime, stamp) =>
      Stale(token, expires, check, stamp) && stamp <= clock && got != "" && lifetime > 0
    case _ => true
  }

  predicate FetchRules(margin: int, clock: int, f: Fetch) {
    f.token != "" && f.lifetime > 0 && f.stamp <= clock && f.expires == Expiry(margin, f.stamp, f.lifetime)
    && (f.check.Some? ==> f.check.value <= f.stamp)
  }

  /** A fetch that was not forced was decided on when the token before it had expired. */
  predicate Follows(f: Fetch, next: Fetch) {
    next.check.Some? ==> f.expires <= next.check.value
  }

  predicate ServedRules(fetches: seq<Fetch>, v: Served) {
    0 < v.published <= |fetches| && fetches[v.published - 1].token == v.token && v.readAt < fetches[v.published - 1].expires
  }

  predicate FetchesRules(margin: int, clock: int, fetches: seq<Fetch>) {
    && (forall i | 0 <= i < |fetches| :: FetchRules(margin, clock, fetches[i]))
    && (forall i | 0 < i < |fetches| :: Follows(fetches[i - 1], fetches[i]))
  }

  /** The cache holds the last token fetched. */
  predicate Cached(token: string, expires: int, fetches: seq<Fetch>) {
    if fetches == [] then token == ""
    else token == fetches[|fetches| - 1].token && expires == fetches[|fetches| - 1].expires
  }

  ghost predicate Invariant(margin: int, s: State) {
    && (forall t: nat :: Inside(At(s, t)) <==> s.tokenMu == Some(t))
    && (forall t | t in s.callers :: CallerRules(s.clock, s.token, s.expires, s.callers[t]))
    && Cached(s.token, s.expires, s.fetches)
    && FetchesRules(margin, s.clock, s.fetches)
    && (forall v | v in s.served :: ServedRules(s.fetches, v))
  }

  lemma PublishKeeps(margin: int, s: State, t: nat)
    requires margin > 0 && Invariant(margin, s) && Enabled(s, Publish(t))
    ensures Invariant(margin, Apply(margin, s, Publish(t)))
  {
    var s' := Apply(margin, s, Publish(t));
    assert t in s.callers;
    var last := s'.fetches[|s.fetches|];
    assert FetchRules(margin, s.clock, last);
    assert s.fetches != [] ==> Follows(s.fetches[|s.fetches| - 1], last);
    forall u | u in s'.callers ensures CallerRules(s'.clock, s'.token, s'.expires, s'.callers[u]) {
      if u != t {
        assert !Inside(At(s, u));
      }
    }
  }

  lemma StepKeeps(margin: int, s: State, a: Action)
    requires margin > 0 && Invariant(margin, s) && Enabled(s, a)
    ensures Invariant(margin, Apply(margin, s, a))
  {
    if a.Publish? {
      PublishKeeps(margin, s, a.t);
    }
  }

  lemma {:induction false} RunKeeps(margin: int, s: State, trace: seq<Action>)
    requires margin > 0 && Invariant(margin, s) && Runs(margin, s, trace)
    ensures Invariant(margin, Final(margin, s, trace))
    decreases |trace|
  {
    if trace != [] {
      StepKeeps(margin, s, trace[0]);
      RunKeeps(margin, Apply(margin, s, trace[0]), trace[1..]);
    }
  }

  // Whole runs

  /** Between two fetches that were not forced lies the expiry of the earlier one. */
  lemma {:induction false} Separated(margin: int, clock: int, fetches: seq<Fetch>, i: nat, j: nat)
    requires margin > 0 && FetchesRules(margin, clock, fetches) && i < j < |fetches|
    requires forall k | i < k <= j :: fetches[k].check.Some?
    ensures fetches[i].expires <= fetches[j].check.value
    ensures fetches[i].expires < fetches[j].expires
    decreases j
  {
    assert Follows(fetches[j - 1], fetches[j]);
    assert FetchRules(margin, clock, fetches[j]);
    if i < j - 1 {
      Separated(margin, clock, fetches, i, j - 1);
    }
  }

  /** Over every interleaving, from a client that holds no token: every fetch that was not forced was
      decided on after the fetch before it had expired; without forced callers the same holds of any two
      fetches; and no token leaves the cache later than the margin before the end of its lifetime. */
  lemma SingleFlight(margin: int, clock: int, trace: seq<Action>)
    requires margin > 0 && Runs(margin, Start(clock), trace)
    ensures var s := Final(margin, Start(clock), trace);
            && (forall i | 0 < i < |s.fetches| && s.fetches[i].check.Some? :: s.fetches[i - 1].expires <= s.fetches[i].check.value)
            && (forall i, j | 0 <= i < j < |s.fetches| && (forall k | i < k <= j :: s.fetches[k].check.Some?) ::
                  s.fetches[i].expires <= s.fetches[j].check.value <= s.fetches[j].stamp)
  {
    RunKeeps(margin, Start(clock), trace);
    var s := Final(margin, Start(clock), trace);
    forall i | 0 < i < |s.fetches| && s.fetches[i].check.Some? ensures s.fetches[i - 1].expires <= s.fetches[i].check.value {
      assert Follows(s.fetches[i - 1], s.fetches[i]);
    }
    forall i, j | 0 <= i < j < |s.fetches| && (forall k | i < k <= j :: s.fetches[k].check.Some?)
      ensures s.fetches[i].expires <= s.fetches[j].check.value <= s.fetches[j].stamp
    {
      assert FetchRules(margin, s.clock, s.fetches[j]);
      Separated(margin, s.clock, s.fetches, i, j);
    }
  }

  /** Every token served from the cache was the latest one fetched and, at the time its caller read,
      had its whole margin left, or all of its life when that is no longer than the margin. */
  lemma ServedUnexpired(margin: int, clock: int, trace: seq<Action>)
    requires margin > 0 && Runs(margin, Start(clock), trace)
    ensures var s := Final(margin, Start(clock), trace);
            forall v | v in s.served ::
              && 0 < v.published <= |s.fetches|
              && var f := s.fetches[v.published - 1];
                 && v.token == f.token
                 && v.readAt < f.stamp + f.lifetime
                 && (f.lifetime > margin ==> v.readAt + margin < f.stamp + f.lifetime)
  {
    RunKeeps(margin, Start(clock), trace);
    var s := Final(margin, Start(clock), trace);
    forall v | v in s.served
      ensures 0 < v.published <= |s.fetches|
      ensures v.token == s.fetches[v.published - 1].token
      ensures v.readAt < s.fetches[v.published - 1].expires
      ensures FetchRules(margin, s.clock, s.fetches[v.published - 1])
    {
      assert ServedRules(s.fetches, v);
    }
  }

  /** What a caller does next. */
  function Next(s: State, t: nat, answer: Answer): Option<Action> {
    match At(s, t)
    case Idle => None
    case Checking(_, _) => Some(CheckFast(t))
    case Waiting(_) => if s.tokenMu.None? then Some(Acquire(t)) else None
    case Entered => Some(ReadAgain(t))
    case Rechecking(_) => Some(CheckSlow(t))
    case Fetching(_) => Some(Reply(t, answer))
    case Answered(_, _, _) => Some(ReadClock(t))
    case Publishing(_, _, _, _) => Some(Publish(t))
    case Leaving => Some(Release(t))
  }

  /** The two mutexes never lock the callers out: after any run, while someone is busy someone can move,
      at most one caller is behind tokenMu, and it is never the one that is stuck. */
  lemma NeverStuck(margin: int, clock: int, trace: seq<Action>, t: nat, u: nat, answer: Answer)
    requires margin > 0 && Runs(margin, Start(clock), trace)
    ensures var s := Final(margin, Start(clock), trace);
            && (Inside(At(s, t)) && Inside(At(s, u)) ==> t == u)
            && (!At(s, t).Idle? ==>
                  exists who: nat :: Next(s, who, answer).Some? && Enabled(s, Next(s, who, answer).value)
                                     && (Next(s, t, answer).Some? ==> who == t)
                                     && (Next(s, t, answer).None? ==> s.tokenMu == Some(who)))
  {
    RunKeeps(margin, Start(clock), trace);
    var s := Final(margin, Start(clock), trace);
    if !At(s, t).Idle? {
      var who := if Next(s, t, answer).Some? then t else s.tokenMu.value;
      assert Next(s, who, answer).Some? && Enabled(s, Next(s, who, answer).value);
    }
  }

  lemma {:induction false} RunNext(margin: int, s: State, trace: seq<Action>, a: Action)
    requires Runs(margin, s, trace) && Enabled(Final(margin, s, trace), a)
    ensures Runs(margin, s, trace + [a])
    ensures Final(margin, s, trace + [a]) == Apply(margin, Final(margin, s, trace), a)
    decreases |trace|
  {
    if trace == [] {
      assert [a][1..] == [];
      assert [] + [a] == [a];
    } else {
      RunNext(margin, Apply(margin, s, trace[0]), trace[1..], a);
      assert (trace + [a])[1..] == trace[1..] + [a];
    }
  }

  lemma {:induction false} RunsJoin(margin: int, s: State, first: seq<Action>, second: seq<Action>)
    requires Runs(margin, s, first) && Runs(margin, Final(margin, s, first), second)
    ensures Runs(margin, s, first + second) && Final(margin, s, first + second) == Final(margin, Final(margin, s, first), second)
    decreases |first|
  {
    if first == [] {
      assert first + second == second;
    } else {
      RunsJoin(margin, Apply(margin, s, first[0]), first[1..], second);
      assert (first + second)[1..] == first[1..] + second;
    }
  }

  lemma RunStarts(margin: int, s: State, a: Action, rest: seq<Action>)
    requires Enabled(s, a) && Runs(margin, Apply(margin, s, a), rest)
    ensures Runs(margin, s, [a] + rest) && Final(margin, s, [a] + rest) == Final(margin, Apply(margin, s, a), rest)
  {
    assert ([a] + rest)[1..] == rest;
  }

  /** The steps of a granted request, from the answer to the release. */
  function Grant(t: nat, answer: Answer, elapsed: nat): seq<Action> {
    [Reply(t, answer)] + ([Tick(elapsed)] + ([ReadClock(t)] + ([Publish(t)] + ([Release(t)] + []))))
  }

  lemma GrantRuns(margin: int, s: State, t: nat, answer: Answer, elapsed: nat)
    requires At(s, t).Fetching? && answer.Granted? && answer.token != ""
    ensures Runs(margin, s, Grant(t, answer, elapsed))
    ensures var s', stamp := Final(margin, s, Grant(t, answer, elapsed)), s.clock + elapsed;
            var expires := Expiry(margin, stamp, Lifetime(answer.seconds));
            && s'.token == answer.token && s'.expires == expires && s'.tokenMu.None? && At(s', t).Idle?
            && (forall u: nat | u != t :: At(s', u) == At(s, u))
            && s'.fetches == s.fetches + [Fetch(At(s, t).check, answer.token, Lifetime(answer.seconds), stamp, expires)]
            && s'.served == s.served
  {
    var s1 := Apply(margin, s, Reply(t, answer));
    var s2 := Apply(margin, s1, Tick(elapsed));
    var s3 := Apply(margin, s2, ReadClock(t));
    var s4 := Apply(margin, s3, Publish(t));
    RunStarts(margin, s4, Release(t), []);
    RunStarts(margin, s3, Publish(t), [Release(t)] + []);
    RunStarts(margin, s2, ReadClock(t), [Publish(t)] + ([Release(t)] + []));
    RunStarts(margin, s1, Tick(elapsed), [ReadClock(t)] + ([Publish(t)] + ([Release(t)] + [])));
    RunStarts(margin, s, Reply(t, answer), [Tick(elapsed)] + ([ReadClock(t)] + ([Publish(t)] + ([Release(t)] + []))));
  }

  /** How long a granted token is handed out: until the margin before its end, or until its very end when it
      does not live longer than the margin; an answer without a lifetime means two hours. */
  lemma GrantServesExactly(margin: int, s: State, t: nat, answer: Answer, elapsed: nat, u: nat, now: int)
    requires At(s, t).Fetching? && answer.Granted? && answer.token != "" && u != t
    requires At(s, u) == Checking(false, now)
    ensures Runs(margin, s, Grant(t, answer, elapsed))
    ensures var s' := Final(margin, s, Grant(t, answer, elapsed));
            var life := if answer.seconds > 0 then answer.seconds * 1_000_000_000 else 7_200_000_000_000;
            var end := s.clock + elapsed + life - if life > margin then margin else 0;
            && At(s', u) == Checking(false, now)
            && Apply(margin, s', CheckFast(u)).served ==
                 if now < end then s'.served + [Served(answer.token, now, |s'.fetches|)] else s'.served
  {
    GrantRuns(margin, s, t, answer, elapsed);
  }

  /** The condition on forced callers is needed: a forced caller that gets behind tokenMu fetches again
      whatever the cache holds. */
  lemma ForcedFetchesAgain(margin: int, s: State, t: nat, answer: Answer)
    requires At(s, t) == Waiting(true) && s.tokenMu.None? && answer.Granted? && answer.token != "" && Fresh(s, s.clock)
    ensures var refresh := [Acquire(t)] + Grant(t, answer, 0);
            var expires := Expiry(margin, s.clock, Lifetime(answer.seconds));
            && Runs(margin, s, refresh)
            && Final(margin, s, refresh).fetches ==
                 s.fetches + [Fetch(None, answer.token, Lifetime(answer.seconds), s.clock, expires)]
  {
    var mid := Apply(margin, s, Acquire(t));
    GrantRuns(margin, mid, t, answer, 0);
    RunStarts(margin, s, Acquire(t), Grant(t, answer, 0));
  }

  /** The cache of one client. */
  class Client {
    const margin: int
    var token: string
    var tokenExpires: int

    constructor (configured: int)
      ensures margin == Margin(configured) && token == ""
    {
      margin := Margin(configured);
      token := "";
      tokenExpires := 0;
    }

    /** The protocol state of a client that is not being called. */
    ghost function Resting(clock: int): State
      reads this
    {
      State(clock, token, tokenExpires, None, map[], [], [])
    }

    /** The fields are those of the protocol state. */
    ghost predicate Reflects(s: State)
      reads this
    {
      token == s.token && tokenExpires == s.expires
    }

    /** What happened to caller t from s to s': it is done, nobody else moved, and a token came back exactly
        when one was served or published. */
    ghost predicate Ended(s: State, s': State, t: nat, result: Option<string>) {
      && s'.tokenMu.None? && At(s', t).Idle? && (forall u: nat | u != t :: At(s', u) == At(s, u))
      && match result
         case None => s'.fetches == s.fetches && s'.served == s.served
         case Some(got) =>
           || (s'.fetches == s.fetches && |s'.served| == |s.served| + 1 && s'.served[..|s.served|] == s.served && s'.served[|s.served|].token == got)
           || (|s'.fetches| == |s.fetches| + 1 && s'.fetches[..|s.fetches|] == s.fetches && s'.served == s.served && s'.fetches[|s.fetches|].token == got)
    }

    /** The first check, under mu. */
    method Peek(t: nat, force: bool, now: int, ghost s: State) returns (hit: Option<string>, ghost s': State)
      requires Reflects(s) && At(s, t) == Checking(force, now)
      ensures s' == Apply(margin, s, CheckFast(t)) && Reflects(s')
      ensures hit == if !force && token != "" && now < tokenExpires then Some(token) else None
      ensures hit.None? ==> At(s', t) == Waiting(force)
    {
      s' := Apply(margin, s, CheckFast(t));
      if !force && token != "" && now < tokenExpires {
        return Some(token), s';
      }
      return None, s';
    }

    /** The part behind tokenMu, from whatever state other callers have left when the lock is free: the
        second check, and the request unless it succeeds. */
    method Refresh(t: nat, force: bool, second: int, answer: Answer, third: int, ghost s: State)
      returns (result: Option<string>, ghost trace: seq<Action>)
      requires Reflects(s) && At(s, t) == Waiting(force) && s.tokenMu.None? && s.clock <= second <= third
      modifies this
      ensures Runs(margin, s, trace) && Reflects(Final(margin, s, trace)) && Ended(s, Final(margin, s, trace), t, result)
      ensures result == if !force && old(token) != "" && second < old(tokenExpires) then Some(old(token))
                        else if answer.Refused? || answer.token == "" then None else Some(answer.token)
    {
      ghost var at;
      trace, at := Then(s, [], s, Acquire(t));
      if !force {
        trace, at := Then(s, trace, at, Tick(second - at.clock));
        trace, at := Then(s, trace, at, ReadAgain(t));
        trace, at := Then(s, trace, at, CheckSlow(t));
        if token != "" && second < tokenExpires {
          trace, at := Then(s, trace, at, Release(t));
          return Some(token), trace;
        }
      }
      result, trace := Request(t, answer, third, s, trace, at);
    }

    /** The request behind tokenMu and what it leaves in the cache. */
    method Request(t: nat, answer: Answer, third: int, ghost s: State, ghost trace: seq<Action>, ghost before: State)
      returns (result: Option<string>, ghost trace': seq<Action>)
      requires Runs(margin, s, trace) && Final(margin, s, trace) == before && Reflects(before)
      requires At(before, t).Fetching? && before.clock <= third
      requires before.fetches == s.fetches && before.served == s.served && forall u: nat | u != t :: At(before, u) == At(s, u)
      modifies this
      ensures Runs(margin, s, trace') && Reflects(Final(margin, s, trace')) && Ended(s, Final(margin, s, trace'), t, result)
      ensures result == if answer.Refused? || answer.token == "" then None else Some(answer.token)
    {
      if answer.Refused? || answer.token == "" {
        ghost var at;
        trace', at := Then(s, trace, before, Reply(t, answer));
        trace', at := Then(s, trace', at, Release(t));
        return None, trace';
      }
      GrantRuns(margin, before, t, answer, third - before.clock);
      RunsJoin(margin, s, trace, Grant(t, answer, third - before.clock));
      trace' := trace + Grant(t, answer, third - before.clock);
      var expires := third + Lifetime(answer.seconds);
      if Lifetime(answer.seconds) > margin {
        expires := expires - margin;
      }
      token, tokenExpires := answer.token, expires;
      return Some(answer.token), trace';
    }

    /** The two halves in a row: one call when nobody else is under way. */
    method AccessToken(force: bool, first: int, second: int, answer: Answer, third: int)
      returns (result: Option<string>, ghost trace: seq<Action>)
      requires first <= second <= third
      modifies this
      ensures Runs(margin, old(Resting(first)), trace)
      ensures Reflects(Final(margin, old(Resting(first)), trace)) && Ended(old(Resting(first)), Final(margin, old(Resting(first)), trace), 0, result)
      ensures result.None? <==> (force || old(token) == "" || old(tokenExpires) <= first) && (answer.Refused? || answer.token == "")
    {
      ghost var s := Resting(first);
      ghost var at, after, rest;
      var hit;
      trace, at := Then(s, [], s, Call(0, force));
      hit, after := Peek(0, force, first, at);
      trace, at := Then(s, trace, at, CheckFast(0));
      if hit.Some? {
        return hit, trace;
      }
      result, rest := Refresh(0, force, second, answer, third, at);
      RunsJoin(margin, s, trace, rest);
      trace := trace + rest;
    }

    ghost method Then(s: State, trace: seq<Action>, at: State, a: Action) returns (trace': seq<Action>, at': State)
      requires Runs(margin, s, trace) && Final(margin, s, trace) == at && Enabled(at, a)
      ensures Runs(margin, s, trace') && Final(margin, s, trace') == at' == Apply(margin, at, a)
    {
      RunNext(margin, s, trace, a);
      return trace + [a], Apply(margin, at, a);
    }
  }
}
