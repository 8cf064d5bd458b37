/** Card clicks: each is recorded under its event id, then applied, then finished. Any number of them are
    under way at once, and a handler may stop between any two of its steps. */
module Interactions {
  import opened Base
  import opened Text
  import opened Addresses
  import Outbox
  import opened Preferences

  const OPEN_SETTINGS := "open_settings"
  const CLOSE_SETTINGS := "close_settings"
  const MUTE_ALL := "mute_all"
  const UNMUTE_ALL := "unmute_all"
  const MUTE_DURATION := 2_592_000_000_000_000

  datatype Status = Processing | Applied | Duplicate | Rejected | Ignored

  /** One click with what its message id leads to: the recipient of the delivery, and the time. */
  datatype Click = Click(eventId: string, action: string, recipient: Option<string>, now: int)

  function Deadline(click: Click): Option<int> {
    if click.action == MUTE_ALL then Some(click.now + MUTE_DURATION) else None
  }

  /** What a click does to the preferences once it is recorded. */
  function Effect(syntax: Syntax, rows: Rows, click: Click): Rows {
    if click.recipient.None? then rows
    else if click.action != MUTE_ALL && click.action != UNMUTE_ALL then rows
    else
      var email := UsableEmail(syntax, click.recipient.value);
      if email == "" then rows else WithMute(rows, email, Deadline(click))
  }

  /** The answer to a click that is not a duplicate. */
  function Answer(syntax: Syntax, click: Click): Status {
    if Trim(click.eventId) == "" then Rejected
    else if click.action !in {OPEN_SETTINGS, CLOSE_SETTINGS, MUTE_ALL, UNMUTE_ALL} then Ignored
    else if click.recipient.None? then Rejected
    else if click.action in {MUTE_ALL, UNMUTE_ALL} && UsableEmail(syntax, click.recipient.value) == "" then Rejected
    else Applied
  }

  /** What a click leaves behind: a mute silences its recipient for thirty days, to the millisecond, an
      unmute ends any mute, and everything else, other recipients included, stays as it was. */
  ghost predicate Obeyed(syntax: Syntax, before: Rows, after: Rows, click: Click) {
    var email := if click.recipient.Some? then UsableEmail(syntax, click.recipient.value) else "";
    if email == "" || click.action !in {"mute_all", "unmute_all"} then after == before
    else
      && (forall t: int :: StateOf(syntax, after, t, email).muted <==>
            click.action == "mute_all" && t < Outbox.Stamp(click.now + 30 * 24 * 3600 * 1_000_000_000) * 1_000_000)
      && email in after && (forall a | a != email :: a in after <==> a in before) && (forall a | a in before && a != email :: after[a] == before[a])
      && after[email].reasons == (if email in before then before[email] else DEFAULT_ROW).reasons
  }

  lemma EffectObeys(syntax: Syntax, rows: Rows, click: Click)
    ensures Obeyed(syntax, rows, Effect(syntax, rows, click), click)
  {
    if click.recipient.Some? && click.action in {"mute_all", "unmute_all"} {
      UsableIsStable(syntax, click.recipient.value);
      var email := UsableEmail(syntax, click.recipient.value);
      if email != "" {
        forall t: int
          ensures StateOf(syntax, Effect(syntax, rows, click), t, email).muted <==>
                    click.action == "mute_all" && t < Outbox.Stamp(click.now + 30 * 24 * 3600 * 1_000_000_000) * 1_000_000
        {
        }
      }
    }
  }

  /** How a click is answered: applied when its delivery is known and the action could be carried out. */
  lemma AnswerExactly(syntax: Syntax, click: Click)
    requires Trim(click.eventId) != ""
    ensures Answer(syntax, click) == Ignored <==> click.action !in {"open_settings", "close_settings", "mute_all", "unmute_all"}
    ensures Answer(syntax, click) == Applied <==>
              && click.recipient.Some?
              && (|| click.action in {"open_settings", "close_settings"}
                  || (click.action in {"mute_all", "unmute_all"} && UsableEmail(syntax, click.recipient.value) != ""))
    ensures Answer(syntax, click) in {Ignored, Applied, Rejected}
  {}

  /** What a click does and what it is answered, as far as the protocol is concerned. */
  datatype Rules = Rules(effect: (Rows, Click) -> Rows, answer: Click -> Status)

  function RulesOf(syntax: Syntax): Rules {
    Rules((rows: Rows, click: Click) => Effect(syntax, rows, click), (click: Click) => Answer(syntax, click))
  }

  // Clicks handled one after the other, none of them interrupted

  datatype Ledger = Ledger(preferences: Rows, seen: set<string>)

  function Step(rules: Rules, s: Ledger, click: Click): Ledger {
    if Trim(click.eventId) == "" || click.eventId in s.seen then s
    else Ledger(rules.effect(s.preferences, click), s.seen + {click.eventId})
  }

  function Run(rules: Rules, s: Ledger, clicks: seq<Click>): Ledger {
    if clicks == [] then s
    else Step(rules, Run(rules, s, clicks[..|clicks| - 1]), clicks[|clicks| - 1])
  }

  predicate Occurs(clicks: seq<Click>, eventId: string) {
    exists c | c in clicks :: c.eventId == eventId
  }

  /** The clicks whose event id did not come before. */
  function FirstOccurrences(clicks: seq<Click>): seq<Click> {
    if clicks == [] then []
    else
      var front, last := clicks[..|clicks| - 1], clicks[|clicks| - 1];
      FirstOccurrences(front) + if Occurs(front, last.eventId) then [] else [last]
  }

  lemma {:induction false} SeenGrows(rules: Rules, s: Ledger, clicks: seq<Click>)
    ensures forall c | c in clicks && Trim(c.eventId) != "" :: c.eventId in Run(rules, s, clicks).seen
  {
    if clicks != [] {
      SeenGrows(rules, s, clicks[..|clicks| - 1]);
      assert clicks == clicks[..|clicks| - 1] + [clicks[|clicks| - 1]];
    }
  }

  lemma RunSnoc(rules: Rules, s: Ledger, clicks: seq<Click>, last: Click)
    ensures Run(rules, s, clicks + [last]) == Step(rules, Run(rules, s, clicks), last)
  {
    assert (clicks + [last])[..|clicks|] == clicks;
  }

  /** At most once: repeated event ids change nothing, whatever they ask for and whenever they come. */
  lemma {:induction false} RepeatsChangeNothing(rules: Rules, s: Ledger, clicks: seq<Click>)
    ensures Run(rules, s, clicks) == Run(rules, s, FirstOccurrences(clicks))
  {
    if clicks != [] {
      var front, last := clicks[..|clicks| - 1], clicks[|clicks| - 1];
      RepeatsChangeNothing(rules, s, front);
      if Occurs(front, last.eventId) {
        SeenGrows(rules, s, front);
        assert FirstOccurrences(clicks) == FirstOccurrences(front);
      } else {
        RunSnoc(rules, s, FirstOccurrences(front), last);
      }
    }
  }

  // The steps of many handlers

  /** A click under way, before or after it was applied. */
  datatype Flight = Flight(click: Click, done: bool)

  /** `intended` is what the preferences would be had no handler stopped; `applied` and `lost` are the
      clicks applied so far, in order, and those recorded whose handler stopped before. */
  datatype State = State(
    preferences: Rows,
    seen: map<string, Status>,
    flights: map<string, Flight>,
    intended: Rows,
    applied: seq<Click>,
    lost: seq<Click>)

  datatype Action = Receive(click: Click) | Act(id: string) | Finish(id: string) | Stop(id: string)

  predicate New(s: State, click: Click) {
    Trim(click.eventId) != "" && click.eventId !in s.seen
  }

  predicate Enabled(s: State, a: Action) {
    match a
    case Receive(_) => true
    case Act(id) => id in s.flights && !s.flights[id].done
    case Finish(id) => id in s.flights && s.flights[id].done
    case Stop(id) => id in s.flights
  }

  function Apply(rules: Rules, s: State, a: Action): State
    requires Enabled(s, a)
  {
    match a
    case Receive(click) =>
      if !New(s, click) then s
      else s.(seen := s.seen[click.eventId := Processing], flights := s.flights[click.eventId := Flight(click, false)])
    case Act(id) =>
      var click := s.flights[id].click;
      s.(preferences := rules.effect(s.preferences, click),
         intended := rules.effect(s.intended, click),
         flights := s.flights[id := Flight(click, true)],
         applied := s.applied + [click])
    case Finish(id) =>
      s.(seen := s.seen[id := rules.answer(s.flights[id].click)], flights := s.flights - {id})
    case Stop(id) =>
      var click := s.flights[id].click;
      if s.flights[id].done then s.(flights := s.flights - {id})
      else s.(flights := s.flights - {id}, intended := rules.effect(s.intended, click), lost := s.lost + [click])
  }

  /** A finite run: every action is enabled where it happens. */
  predicate Runs(rules: Rules, s: State, trace: seq<Action>)
    decreases |trace|
  {
    trace != [] ==> Enabled(s, trace[0]) && Runs(rules, Apply(rules, s, trace[0]), trace[1..])
  }

  function Final(rules: Rules, s: State, trace: seq<Action>): State
    requires Runs(rules, s, trace)
    decreases |trace|
  {
    if trace == [] then s else Final(rules, Apply(rules, s, trace[0]), trace[1..])
  }

  function Start(rows: Rows): State {
    State(rows, map[], map[], rows, [], [])
  }

  function ApplyAll(rules: Rules, rows: Rows, clicks: seq<Click>): Rows {
    if clicks == [] then rows
    else rules.effect(ApplyAll(rules, rows, clicks[..|clicks| - 1]), clicks[|clicks| - 1])
  }

  ghost predicate DistinctEvents(clicks: seq<Click>) {
    forall i, j | 0 <= i < j < |clicks| :: clicks[i].eventId != clicks[j].eventId
  }

  predicate Awaits(s: State, id: string) {
    id in s.flights && !s.flights[id].done
  }

  /** Where a recorded click is: exactly one of waiting, applied and lost. */
  ghost predicate OneOf(s: State, id: string) {
    && (Awaits(s, id) ==> !Occurs(s.applied, id) && !Occurs(s.lost, id))
    && (Occurs(s.applied, id) ==> !Occurs(s.lost, id))
    && (id in s.seen <==> Awaits(s, id) || Occurs(s.applied, id) || Occurs(s.lost, id))
  }

  ghost predicate Invariant(rules: Rules, rows: Rows, s: State) {
    && s.preferences == ApplyAll(rules, rows, s.applied)
    && DistinctEvents(s.applied) && DistinctEvents(s.lost)
    && (forall id :: OneOf(s, id))
    && (forall id | id in s.flights :: s.flights[id].click.eventId == id && id in s.seen)
    && (forall id | id in s.flights && s.flights[id].done :: s.flights[id].click in s.applied)
    && (forall id | id in s.seen && s.seen[id] != Processing :: Answered(rules, s.applied, id, s.seen[id]))
  }

  lemma OccursSnoc(clicks: seq<Click>, last: Click)
    ensures forall id :: Occurs(clicks + [last], id) <==> Occurs(clicks, id) || last.eventId == id
  {
    var all := clicks + [last];
    assert forall c :: c in all <==> c in clicks || c == last;
    assert last in all;
    forall id | Occurs(clicks, id) ensures Occurs(all, id) {
      var c :| c in clicks && c.eventId == id;
      assert c in all;
    }
  }

  lemma DistinctSnoc(clicks: seq<Click>, last: Click)
    requires DistinctEvents(clicks) && !Occurs(clicks, last.eventId)
    ensures DistinctEvents(clicks + [last])
  {
    assert forall i | 0 <= i < |clicks| :: clicks[i] in clicks;
  }

  /** A finished event was applied and answered accordingly. */
  ghost predicate Answered(rules: Rules, applied: seq<Click>, id: string, status: Status) {
    exists c | c in applied :: c.eventId == id && status == rules.answer(c)
  }

  lemma AnsweredStays(rules: Rules, applied: seq<Click>, last: Click, id: string, status: Status)
    requires Answered(rules, applied, id, status)
    ensures Answered(rules, applied + [last], id, status)
  {
    var c :| c in applied && c.eventId == id && status == rules.answer(c);
    assert c in applied + [last];
  }

  lemma ActPlaces(rules: Rules, s: State, id: string)
    requires id in s.flights && !s.flights[id].done && s.flights[id].click.eventId == id
    requires forall other :: OneOf(s, other)
    ensures !Occurs(s.applied, id)
    ensures forall other :: OneOf(Apply(rules, s, Act(id)), other)
  {
    assert OneOf(s, id);
    OccursSnoc(s.applied, s.flights[id].click);
    forall other ensures OneOf(Apply(rules, s, Act(id)), other) {
      assert OneOf(s, other);
    }
  }

  lemma ActKeeps(rules: Rules, rows: Rows, s: State, id: string)
    requires Invariant(rules, rows, s) && Enabled(s, Act(id))
    ensures Invariant(rules, rows, Apply(rules, s, Act(id)))
  {
    var click := s.flights[id].click;
    ActPlaces(rules, s, id);
    DistinctSnoc(s.applied, click);
    ApplyAllSnoc(rules, rows, s.applied, click);
    AllAnsweredStay(rules, s, click);
  }

  lemma ApplyAllSnoc(rules: Rules, rows: Rows, clicks: seq<Click>, last: Click)
    ensures ApplyAll(rules, rows, clicks + [last]) == rules.effect(ApplyAll(rules, rows, clicks), last)
  {
    assert (clicks + [last])[..|clicks|] == clicks;
  }

  lemma AllAnsweredStay(rules: Rules, s: State, last: Click)
    requires forall id | id in s.seen && s.seen[id] != Processing :: Answered(rules, s.applied, id, s.seen[id])
    ensures forall id | id in s.seen && s.seen[id] != Processing :: Answered(rules, s.applied + [last], id, s.seen[id])
  {
    forall id | id in s.seen && s.seen[id] != Processing ensures Answered(rules, s.applied + [last], id, s.seen[id]) {
      AnsweredStays(rules, s.applied, last, id, s.seen[id]);
    }
  }

  lemma StopKeeps(rules: Rules, rows: Rows, s: State, id: string)
    requires Invariant(rules, rows, s) && Enabled(s, Stop(id))
    ensures Invariant(rules, rows, Apply(rules, s, Stop(id)))
  {
    var click := s.flights[id].click;
    assert OneOf(s, id);
    OccursSnoc(s.lost, click);
    if !s.flights[id].done {
      DistinctSnoc(s.lost, click);
    }
    forall other ensures OneOf(Apply(rules, s, Stop(id)), other) {
      assert OneOf(s, other);
    }
  }

  lemma StepKeeps(rules: Rules, rows: Rows, s: State, a: Action)
    requires Invariant(rules, rows, s) && Enabled(s, a)
    ensures Invariant(rules, rows, Apply(rules, s, a))
  {
    match a
    case Act(id) => ActKeeps(rules, rows, s, id);
    case Stop(id) => StopKeeps(rules, rows, s, id);
    case _ =>
      forall other ensures OneOf(Apply(rules, s, a), other) {
        assert OneOf(s, other);
      }
  }

  lemma {:induction false} RunKeeps(rules: Rules, rows: Rows, s: State, trace: seq<Action>)
    requires Invariant(rules, rows, s) && Runs(rules, s, trace)
    ensures Invariant(rules, rows, Final(rules, s, trace))
    decreases |trace|
  {
    if trace != [] {
      StepKeeps(rules, rows, s, trace[0]);
      RunKeeps(rules, rows, Apply(rules, s, trace[0]), trace[1..]);
    }
  }

  /** Over every interleaving and every stop: no event is applied twice, the preferences are those of the
      applied clicks in order, and a recorded event is exactly one of waiting, applied and lost. */
  lemma AtMostOnce(rules: Rules, rows: Rows, trace: seq<Action>, id: string)
    requires Runs(rules, Start(rows), trace)
    ensures var s := Final(rules, Start(rows), trace);
            && s.preferences == ApplyAll(rules, rows, s.applied)
            && DistinctEvents(s.applied)
            && OneOf(s, id)
  {
    RunKeeps(rules, rows, Start(rows), trace);
  }

  /** A recorded event that no handler is about to apply is never applied later, however often its
      callback is repeated. */
  lemma {:induction false} NeverLater(rules: Rules, rows: Rows, s: State, trace: seq<Action>, id: string)
    requires Invariant(rules, rows, s) && Runs(rules, s, trace) && id in s.seen && !Awaits(s, id)
    ensures var s' := Final(rules, s, trace);
            id in s'.seen && !Awaits(s', id) && (Occurs(s'.applied, id) <==> Occurs(s.applied, id))
    decreases |trace|
  {
    if trace != [] {
      var a := trace[0];
      StepKeeps(rules, rows, s, a);
      if a.Act? {
        OccursSnoc(s.applied, s.flights[a.id].click);
      }
      NeverLater(rules, rows, Apply(rules, s, a), trace[1..], id);
    }
  }

  /** At most once is not exactly once: a handler that stops before it applies its click loses it for
      good, because every repeated callback counts as a duplicate. */
  lemma InterruptedClickIsLost(rules: Rules, rows: Rows, s: State, id: string, trace: seq<Action>)
    requires Invariant(rules, rows, s) && Awaits(s, id)
    requires Runs(rules, Apply(rules, s, Stop(id)), trace)
    ensures !Occurs(Final(rules, Apply(rules, s, Stop(id)), trace).applied, id)
  {
    assert OneOf(s, id);
    StepKeeps(rules, rows, s, Stop(id));
    NeverLater(rules, rows, Apply(rules, s, Stop(id)), trace, id);
  }

  // What an interruption costs

  /** The same steps with every handler carried on instead of stopped. */
  function Mended(rules: Rules, s: State, trace: seq<Action>): seq<Action>
    requires Runs(rules, s, trace)
    decreases |trace|
  {
    if trace == [] then []
    else
      (if !trace[0].Stop? then [trace[0]]
       else if Awaits(s, trace[0].id) then [Act(trace[0].id), Finish(trace[0].id)]
       else [Finish(trace[0].id)])
      + Mended(rules, Apply(rules, s, trace[0]), trace[1..])
  }

  /** m is where the mended run stands when the run is at s. */
  ghost predicate Mends(s: State, m: State) {
    m.preferences == s.intended && m.flights == s.flights && m.seen.Keys == s.seen.Keys
  }

  lemma RunStarts(rules: Rules, s: State, a: Action, rest: seq<Action>)
    requires Enabled(s, a) && Runs(rules, Apply(rules, s, a), rest)
    ensures Runs(rules, s, [a] + rest) && Final(rules, s, [a] + rest) == Final(rules, Apply(rules, s, a), rest)
  {
    assert ([a] + rest)[1..] == rest;
  }

  /** Where a handler stops before it applied its click, the mended one applies it and finishes. */
  lemma MendedStop(rules: Rules, s: State, m: State, id: string)
    requires Mends(s, m) && Awaits(s, id) && id in s.seen
    ensures Enabled(m, Act(id)) && Enabled(Apply(rules, m, Act(id)), Finish(id))
    ensures Mends(Apply(rules, s, Stop(id)), Apply(rules, Apply(rules, m, Act(id)), Finish(id)))
  {
    assert Apply(rules, Apply(rules, m, Act(id)), Finish(id)).flights == s.flights - {id};
  }

  /** The mended run is a run without stops, and its preferences are the intended ones. */
  lemma {:induction false} MendedRun(rules: Rules, s: State, m: State, trace: seq<Action>)
    requires Runs(rules, s, trace) && Mends(s, m)
    requires forall id | id in s.flights :: id in s.seen
    ensures var mended := Mended(rules, s, trace);
            && Runs(rules, m, mended) && Mends(Final(rules, s, trace), Final(rules, m, mended))
            && forall a | a in mended :: !a.Stop?
    decreases |trace|
  {
    if trace != [] {
      var a, rest := trace[0], trace[1..];
      var s' := Apply(rules, s, a);
      var tail := Mended(rules, s', rest);
      if !a.Stop? {
        MendedRun(rules, s', Apply(rules, m, a), rest);
        RunStarts(rules, m, a, tail);
      } else if Awaits(s, a.id) {
        MendedStop(rules, s, m, a.id);
        var m1 := Apply(rules, m, Act(a.id));
        var m2 := Apply(rules, m1, Finish(a.id));
        MendedRun(rules, s', m2, rest);
        RunStarts(rules, m1, Finish(a.id), tail);
        RunStarts(rules, m, Act(a.id), [Finish(a.id)] + tail);
        assert [Act(a.id)] + ([Finish(a.id)] + tail) == Mended(rules, s, trace);
      } else {
        MendedRun(rules, s', Apply(rules, m, Finish(a.id)), rest);
        RunStarts(rules, m, Finish(a.id), tail);
      }
    }
  }

  /** Every stop comes after the click was applied, or the click would have changed nothing. */
  predicate Harmless(rules: Rules, s: State, trace: seq<Action>)
    requires Runs(rules, s, trace)
    decreases |trace|
  {
    trace == []
    || ((trace[0].Stop? && Awaits(s, trace[0].id) ==>
           rules.effect(s.preferences, s.flights[trace[0].id].click) == s.preferences)
        && Harmless(rules, Apply(rules, s, trace[0]), trace[1..]))
  }

  /** The preferences are the intended ones all along the run. */
  predicate Agrees(rules: Rules, s: State, trace: seq<Action>)
    requires Runs(rules, s, trace)
    decreases |trace|
  {
    s.preferences == s.intended && (trace == [] || Agrees(rules, Apply(rules, s, trace[0]), trace[1..]))
  }

  /** A run has the preferences of its mended run all along, exactly when every stop is harmless. */
  lemma {:induction false} InterruptionsExactly(rules: Rules, s: State, trace: seq<Action>)
    requires Runs(rules, s, trace) && s.preferences == s.intended
    ensures Agrees(rules, s, trace) <==> Harmless(rules, s, trace)
    decreases |trace|
  {
    if trace != [] {
      var s' := Apply(rules, s, trace[0]);
      if s'.preferences == s'.intended {
        InterruptionsExactly(rules, s', trace[1..]);
      }
    }
  }

  /** In particular: when no handler stops before it applied its click, a trace of clicks ends with the
      preferences of the uninterrupted run. */
  lemma {:induction false} UninterruptedAgrees(rules: Rules, s: State, trace: seq<Action>)
    requires Runs(rules, s, trace) && s.preferences == s.intended
    requires Final(rules, s, trace).lost == s.lost
    ensures Final(rules, s, trace).preferences == Final(rules, s, trace).intended
    decreases |trace|
  {
    if trace != [] {
      var s' := Apply(rules, s, trace[0]);
      LostGrows(rules, s', trace[1..]);
      UninterruptedAgrees(rules, s', trace[1..]);
    }
  }

  lemma {:induction false} LostGrows(rules: Rules, s: State, trace: seq<Action>)
    requires Runs(rules, s, trace)
    ensures |s.lost| <= |Final(rules, s, trace).lost|
    decreases |trace|
  {
    if trace != [] { LostGrows(rules, Apply(rules, s, trace[0]), trace[1..]); }
  }

  /** The steps of one handler that is left alone. */
  function Script(s: State, click: Click): seq<Action> {
    if New(s, click) then [Receive(click), Act(click.eventId), Finish(click.eventId)] else [Receive(click)]
  }

  /** Left alone, a handler does one step of the sequential run; the others under way stay where they are. */
  lemma ScriptIsStep(rules: Rules, s: State, click: Click)
    requires forall id | id in s.flights :: id in s.seen
    ensures Runs(rules, s, Script(s, click))
    ensures var s' := Final(rules, s, Script(s, click));
            && s'.flights == s.flights
            && Ledger(s'.preferences, s'.seen.Keys) == Step(rules, Ledger(s.preferences, s.seen.Keys), click)
            && s'.seen == (if New(s, click) then s.seen[click.eventId := rules.answer(click)] else s.seen)
            && s'.preferences == if New(s, click) then rules.effect(s.preferences, click) else s.preferences
  {
    var id := click.eventId;
    var s1 := Apply(rules, s, Receive(click));
    if New(s, click) {
      var s2 := Apply(rules, s1, Act(id));
      var s3 := Apply(rules, s2, Finish(id));
      RunStarts(rules, s2, Finish(id), []);
      RunStarts(rules, s1, Act(id), [Finish(id)] + []);
      RunStarts(rules, s, Receive(click), [Act(id)] + ([Finish(id)] + []));
      assert [Receive(click)] + ([Act(id)] + ([Finish(id)] + [])) == Script(s, click);
      assert s3.flights == s.flights;
    } else {
      RunStarts(rules, s, Receive(click), []);
      assert [Receive(click)] + [] == Script(s, click);
    }
  }

  /** The tables after a handler that was left alone. */
  ghost predicate Scripted(rules: Rules, s: State, click: Click, rows: Rows, seen: map<string, Status>) {
    && Runs(rules, s, Script(s, click))
    && rows == Final(rules, s, Script(s, click)).preferences && seen == Final(rules, s, Script(s, click)).seen
  }

  lemma ScriptedBy(rules: Rules, s: State, click: Click, rows: Rows, seen: map<string, Status>)
    requires forall id | id in s.flights :: id in s.seen
    requires rows == if New(s, click) then rules.effect(s.preferences, click) else s.preferences
    requires seen == if New(s, click) then s.seen[click.eventId := rules.answer(click)] else s.seen
    ensures Scripted(rules, s, click, rows, seen)
  {
    ScriptIsStep(rules, s, click);
  }

  /** The newest delivery that was sent as this message. */
  ghost predicate LastSent(rows: Outbox.Rows, messageId: string, found: Option<string>) {
    match found
    case None => messageId == "" || forall k | k in rows :: rows[k].messageId != Some(messageId)
    case Some(key) =>
      && messageId != "" && key in rows && rows[key].messageId == Some(messageId)
      && forall k | k in rows && rows[k].messageId == Some(messageId) :: rows[k].updatedAt <= rows[key].updatedAt
  }

  /** A delivery just marked with a message id is the one a click on that message finds. */
  lemma DeliveredIsFound(rows: Outbox.Rows, key: string, messageId: string, stamp: int)
    requires key in rows && messageId != ""
    requires forall k | k in rows && rows[k].messageId == Some(messageId) :: rows[k].updatedAt <= stamp
    ensures LastSent(rows[key := Outbox.DeliverRow(rows[key], messageId, stamp)], messageId, Some(key))
  {}

  class InteractionService {
    const outbox: Outbox.Store
    const preferences: PreferenceStore
    var seen: map<string, Status>

    constructor (outbox: Outbox.Store, preferences: PreferenceStore)
      ensures this.outbox == outbox && this.preferences == preferences && seen == map[]
    {
      this.outbox, this.preferences := outbox, preferences;
      seen := map[];
    }

    /** The tables of the protocol as they are, with the handlers under way. */
    ghost function Snapshot(flights: map<string, Flight>): State
      reads this, preferences
    {
      State(preferences.rows, seen, flights, preferences.rows, [], [])
    }

    method DeliveryByMessageId(messageId: string) returns (found: Option<string>)
      ensures LastSent(outbox.rows, messageId, found)
    {
      if messageId == "" {
        return None;
      }
      found := None;
      var rest := outbox.rows.Keys;
      while rest != {}
        invariant rest <= outbox.rows.Keys
        invariant found.None? ==> forall k | k in outbox.rows.Keys - rest :: outbox.rows[k].messageId != Some(messageId)
        invariant found.Some? ==>
                    && found.value in outbox.rows && outbox.rows[found.value].messageId == Some(messageId)
                    && forall k | k in outbox.rows.Keys - rest && outbox.rows[k].messageId == Some(messageId) ::
                         outbox.rows[k].updatedAt <= outbox.rows[found.value].updatedAt
        decreases rest
      {
        var k :| k in rest;
        if outbox.rows[k].messageId == Some(messageId)
           && (found.None? || outbox.rows[found.value].updatedAt < outbox.rows[k].updatedAt) {
          found := Some(k);
        }
        rest := rest - {k};
      }
    }

    /** The insert that records an event, if it is new. */
    method Begin(click: Click, ghost flights: map<string, Flight>) returns (duplicate: bool)
      requires Trim(click.eventId) != ""
      modifies this
      ensures duplicate <==> !New(old(Snapshot(flights)), click)
      ensures var s := Apply(RulesOf(preferences.syntax), old(Snapshot(flights)), Receive(click));
              seen == s.seen && preferences.rows == s.preferences
      ensures seen == if duplicate then old(seen) else old(seen)[click.eventId := Processing]
    {
      if click.eventId in seen {
        return true;
      }
      seen := seen[click.eventId := Processing];
      return false;
    }

    /** The action of a recorded click. */
    method Act(click: Click, ghost flights: map<string, Flight>) returns (status: Status)
      requires Trim(click.eventId) != "" && click.eventId in flights && flights[click.eventId] == Flight(click, false)
      modifies preferences
      ensures var s := Apply(RulesOf(preferences.syntax), old(Snapshot(flights)), Action.Act(click.eventId));
              seen == s.seen && preferences.rows == s.preferences
      ensures preferences.rows == Effect(preferences.syntax, old(preferences.rows), click)
      ensures status == Answer(preferences.syntax, click)
    {
      if click.action == OPEN_SETTINGS || click.action == CLOSE_SETTINGS {
        return if click.recipient.Some? then Applied else Rejected;
      } else if click.action == MUTE_ALL || click.action == UNMUTE_ALL {
        if click.recipient.None? {
          return Rejected;
        }
        var until := if click.action == MUTE_ALL then Some(click.now + MUTE_DURATION) else None;
        var written := preferences.SetMute(click.recipient.value, until);
        return if written then Applied else Rejected;
      } else {
        return Ignored;
      }
    }

    /** The update that records the result. */
    method Finish(click: Click, status: Status, ghost flights: map<string, Flight>)
      requires click.eventId in flights && flights[click.eventId] == Flight(click, true)
      requires status == Answer(preferences.syntax, click)
      modifies this
      ensures var s := Apply(RulesOf(preferences.syntax), old(Snapshot(flights)), Action.Finish(click.eventId));
              seen == s.seen && preferences.rows == s.preferences
      ensures seen == old(seen)[click.eventId := status]
    {
      seen := seen[click.eventId := status];
    }

    /** Records the event, applies the action once, records the result: a handler that runs through, whoever
        else is under way. */
    method Handle(eventId: string, messageId: string, action: string, now: int, ghost flights: map<string, Flight>)
      returns (status: Status, ghost click: Click)
      requires forall id | id in flights :: id in seen
      modifies this, preferences
      ensures ClickOf(eventId, messageId, action, now, click)
      ensures Scripted(RulesOf(preferences.syntax), old(Snapshot(flights)), click, preferences.rows, seen)
      ensures status == if Trim(eventId) != "" && eventId in old(seen) then Duplicate else Answer(preferences.syntax, click)
      ensures if Trim(eventId) != "" && eventId !in old(seen) then Obeyed(preferences.syntax, old(preferences.rows), preferences.rows, click)
              else preferences.rows == old(preferences.rows)
    {
      var found := DeliveryByMessageId(messageId);
      var current := Click(eventId, action, if found.Some? then Some(outbox.rows[found.value].recipient) else None, now);
      click := current;
      assert LastSent(outbox.rows, messageId, found);
      ghost var rules, s := RulesOf(preferences.syntax), Snapshot(flights);
      if Trim(eventId) == "" {
        ScriptedBy(rules, s, click, preferences.rows, seen);
        return Rejected, click;
      }
      var duplicate := Begin(current, flights);
      if duplicate {
        ScriptedBy(rules, s, click, preferences.rows, seen);
        return Duplicate, click;
      }
      EffectObeys(preferences.syntax, preferences.rows, current);
      status := Act(current, flights[eventId := Flight(current, false)]);
      Finish(current, status, flights[eventId := Flight(current, true)]);
      ScriptedBy(rules, s, click, preferences.rows, seen);
    }

    /** The click is for the recipient of the newest delivery sent as this message, if there is one. */
    ghost predicate ClickOf(eventId: string, messageId: string, action: string, now: int, click: Click)
      reads outbox
    {
      exists found ::
        && LastSent(outbox.rows, messageId, found)
        && click == Click(eventId, action, if found.Some? then Some(outbox.rows[found.value].recipient) else None, now)
    }
  }
}
