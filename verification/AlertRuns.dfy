/** What the alert loop keeps over all runs: passes of any content, and restarts of the process. */
module AlertRuns {
  import opened AlertState
  import opened AlertPass

  datatype Step = Passed(evals: seq<Evaluation>, cleanedAt: Time) | Restarted

  ghost predicate AllAcceptable(steps: seq<Step>) {
    forall k :: 0 <= k < |steps| && steps[k].Passed? ==> Acceptable(steps[k].evals)
  }

  /** A restart empties both trackers and leaves the database. */
  ghost function After(s: State, step: Step): (State, seq<Action>)
    requires step.Passed? ==> Acceptable(step.evals)
  {
    match step
    case Passed(evals, cleanedAt) => Pass(s, evals, cleanedAt)
    case Restarted => (State(map[], map[], s.history), [])
  }

  /** The state after the first `n` steps. */
  ghost function StateAt(s: State, steps: seq<Step>, n: nat): State
    requires AllAcceptable(steps) && n <= |steps|
  {
    if n == 0 then s else After(StateAt(s, steps, n - 1), steps[n - 1]).0
  }

  ghost function LogAt(s: State, steps: seq<Step>, n: nat): seq<Action>
    requires AllAcceptable(steps) && n <= |steps|
  {
    if n == 0 then [] else LogAt(s, steps, n - 1) + After(StateAt(s, steps, n - 1), steps[n - 1]).1
  }

  // ----- One rule at a time -----

  /** A rule has no open incident, or one with so many clear evaluations in a row. */
  datatype Phase = Idle | Open(clears: nat)

  datatype Observation = Evaluated(fired: bool) | Disabled | ProcessRestart

  ghost function PhaseOf(s: State, rule: RuleId): Phase {
    if rule in OpenRules(s.history) then Open(Streak(s.streaks, rule)) else Idle
  }

  ghost predicate Observes(step: Step, rule: RuleId, o: Observation) {
    match o
    case Evaluated(fired) => step.Passed? && exists e :: e in step.evals && e.rule == rule && e.fired == fired
    case Disabled => step.Passed? && rule !in EnabledRules(step.evals)
    case ProcessRestart => step.Restarted?
  }

  /** Openings (true) and closings (false) of a rule's incidents. */
  ghost function EventsOfAction(a: Action, rule: RuleId): seq<bool> {
    match a
    case Fired(r, _, _, _, recorded) => if r == rule && recorded then [true] else []
    case Resolved(r) => if r == rule then [false] else []
    case Retired(rules) => if rule in rules then [false] else []
  }

  ghost function RuleEvents(log: seq<Action>, rule: RuleId): seq<bool> {
    if log == [] then [] else RuleEvents(log[..|log| - 1], rule) + EventsOfAction(log[|log| - 1], rule)
  }

  lemma {:induction false} RuleEventsAppend(a: seq<Action>, b: seq<Action>, rule: RuleId)
    ensures RuleEvents(a + b, rule) == RuleEvents(a, rule) + RuleEvents(b, rule)
    decreases |b|
  {
    if b == [] {
      assert a + b == a;
    } else {
      var init, last := b[..|b| - 1], b[|b| - 1];
      assert (a + b)[..|a + b| - 1] == a + init;
      RuleEventsAppend(a, init, rule);
    }
  }

  lemma RuleEventsOne(a: Action, rule: RuleId)
    ensures RuleEvents([a], rule) == EventsOfAction(a, rule)
    ensures RuleEvents([], rule) == []
  {
    assert [a][..0] == [];
  }

  /** How one step moves one rule, and the events it logs for it. */
  ghost predicate Moves(p: Phase, o: Observation, p': Phase, events: seq<bool>) {
    match (p, o)
    case (Idle, Evaluated(true)) => (p' == Idle && events == []) || (p' == Open(0) && events == [true])
    case (Idle, _) => p' == Idle && events == []
    case (Open(_), Evaluated(true)) => p' == Open(0) && events == []
    case (Open(clears), Evaluated(false)) =>
      if clears + 1 < CLEAR_STREAK_TO_RESOLVE then p' == Open(clears + 1) && events == []
      else p' == Idle && events == [false]
    case (Open(_), Disabled) => p' == Idle && events == [false]
    case (Open(_), ProcessRestart) => p' == Open(0) && events == []
  }

  ghost predicate AtMostOneOpen(history: seq<Incident>) {
    forall j, k :: 0 <= j < k < |history| && history[j].open && history[k].open ==> history[j].rule != history[k].rule
  }

  /** Each rule has at most one open incident, and a streak only when it has one, of one clear evaluation. */
  ghost predicate Inv(s: State) {
    && AtMostOneOpen(s.history)
    && forall r :: r in s.streaks ==> r in OpenRules(s.history) && s.streaks[r] == 1
  }

  lemma ResolvedOpenRules(history: seq<Incident>, rules: set<RuleId>)
    ensures OpenRules(Resolve(history, rules)) == OpenRules(history) - rules
    ensures AtMostOneOpen(history) ==> AtMostOneOpen(Resolve(history, rules))
  {
    var out := Resolve(history, rules);
    forall r
      ensures Incident(r, true) in out <==> Incident(r, true) in history && r !in rules
    {
      if Incident(r, true) in history && r !in rules {
        var k :| 0 <= k < |history| && history[k] == Incident(r, true);
        assert out[k] == Incident(r, true);
      }
    }
  }

  lemma OpenedOpenRules(history: seq<Incident>, rule: RuleId)
    ensures OpenRules(history + [Incident(rule, true)]) == OpenRules(history) + {rule}
    ensures AtMostOneOpen(history) && rule !in OpenRules(history) ==> AtMostOneOpen(history + [Incident(rule, true)])
  {
    var out := history + [Incident(rule, true)];
    assert out[|history|] in out;
    assert forall k :: 0 <= k < |history| && history[k].open ==> history[k] == Incident(history[k].rule, true);
  }

  lemma ActionEvents(actions: seq<Action>, rule: RuleId)
    requires |actions| <= 1
    ensures RuleEvents(actions, rule) == if actions == [] then [] else EventsOfAction(actions[0], rule)
  {
    if |actions| == 1 {
      assert actions == [actions[0]];
      RuleEventsOne(actions[0], rule);
    } else {
      RuleEventsOne(Resolved(rule), rule);
    }
  }

  /** One evaluation moves its own rule. */
  lemma EvaluateOneMoves(s: State, open: set<RuleId>, e: Evaluation)
    requires IsI32(e.cooldownSecs) && Inv(s) && (e.rule in open <==> e.rule in OpenRules(s.history))
    ensures var (s', actions) := EvaluateOne(s, open, e);
            && Inv(s')
            && Moves(PhaseOf(s, e.rule), Evaluated(e.fired), PhaseOf(s', e.rule), RuleEvents(actions, e.rule))
  {
    hide OpenRules, AtMostOneOpen, Resolve, RuleEvents, Cooldown, Throttled;
    ResolvedOpenRules(s.history, {e.rule});
    OpenedOpenRules(s.history, e.rule);
    ActionEvents(EvaluateOne(s, open, e).1, e.rule);
  }

  /** One evaluation moves no other rule. */
  lemma EvaluateOneLeaves(s: State, open: set<RuleId>, e: Evaluation, rule: RuleId)
    requires IsI32(e.cooldownSecs) && rule != e.rule
    ensures var (s', actions) := EvaluateOne(s, open, e);
            PhaseOf(s', rule) == PhaseOf(s, rule) && RuleEvents(actions, rule) == []
  {
    hide OpenRules, Resolve, RuleEvents, Cooldown, Throttled;
    ResolvedOpenRules(s.history, {e.rule});
    OpenedOpenRules(s.history, e.rule);
    ActionEvents(EvaluateOne(s, open, e).1, rule);
  }

  lemma {:induction false} EvaluateAllMoves(s: State, open: set<RuleId>, evals: seq<Evaluation>)
    requires Acceptable(evals) && Inv(s) && forall r :: r in EnabledRules(evals) ==> (r in open <==> r in OpenRules(s.history))
    ensures var (s', log) := EvaluateAll(s, open, evals);
            && Inv(s')
            && (forall e :: e in evals ==>
                  Moves(PhaseOf(s, e.rule), Evaluated(e.fired), PhaseOf(s', e.rule), RuleEvents(log, e.rule)))
            && forall r :: r !in EnabledRules(evals) ==> PhaseOf(s', r) == PhaseOf(s, r) && RuleEvents(log, r) == []
    decreases |evals|
  {
    hide OpenRules, Moves, EvaluateOne, RuleEvents, AtMostOneOpen, Inv;
    if evals == [] {
      forall r: RuleId
        ensures RuleEvents([], r) == []
      {
        RuleEventsOne(Resolved(r), r);
      }
    } else {
      var init, last := evals[..|evals| - 1], evals[|evals| - 1];
      assert evals == init + [last];
      EvaluateAllMoves(s, open, init);
      var (before, log) := EvaluateAll(s, open, init);
      var (after, actions) := EvaluateOne(before, open, last);
      assert last in evals;
      assert last.rule !in EnabledRules(init) by {
        forall e | e in init
          ensures e.rule != last.rule
        {
          var k :| 0 <= k < |init| && init[k] == e;
          assert evals[k].rule != evals[|evals| - 1].rule;
        }
      }
      SamePhaseSameOpen(s, before, last.rule);
      EvaluateOneMoves(before, open, last);
      forall r: RuleId | r != last.rule
        ensures PhaseOf(after, r) == PhaseOf(before, r) && RuleEvents(actions, r) == []
      {
        EvaluateOneLeaves(before, open, last, r);
      }
      forall r: RuleId
        ensures RuleEvents(log + actions, r) == RuleEvents(log, r) + RuleEvents(actions, r)
      {
        RuleEventsAppend(log, actions, r);
      }
      forall e | e in evals
        ensures Moves(PhaseOf(s, e.rule), Evaluated(e.fired), PhaseOf(after, e.rule), RuleEvents(log + actions, e.rule))
      {
        if e == last {
          assert [] + RuleEvents(actions, e.rule) == RuleEvents(actions, e.rule);
        } else {
          assert e in init && e.rule in EnabledRules(init);
          assert RuleEvents(log, e.rule) + [] == RuleEvents(log, e.rule);
        }
      }
      forall r | r !in EnabledRules(evals)
        ensures PhaseOf(after, r) == PhaseOf(s, r) && RuleEvents(log + actions, r) == []
      {
        assert last.rule in EnabledRules(evals);
        assert forall e :: e in init ==> e in evals;
      }
    }
  }

  lemma SamePhaseSameOpen(s: State, s': State, rule: RuleId)
    requires PhaseOf(s, rule) == PhaseOf(s', rule)
    ensures rule in OpenRules(s.history) <==> rule in OpenRules(s'.history)
  {
  }

  /** One step, for every rule and whatever it observes of it. */
  lemma StepMoves(s: State, step: Step, rule: RuleId, o: Observation)
    requires Inv(s) && (step.Passed? ==> Acceptable(step.evals)) && Observes(step, rule, o)
    ensures var (s', log) := After(s, step);
            Inv(s') && Moves(PhaseOf(s, rule), o, PhaseOf(s', rule), RuleEvents(log, rule))
  {
    hide OpenRules, EvaluateAll, RuleEvents, AtMostOneOpen, Cleaned;
    match step
    case Restarted =>
      RuleEventsOne(Resolved(rule), rule);
    case Passed(evals, cleanedAt) =>
      var open := OpenRules(s.history);
      var gone := open - EnabledRules(evals);
      var retired := s.(streaks := s.streaks - gone, history := Resolve(s.history, gone));
      ResolvedOpenRules(s.history, gone);
      EvaluateAllMoves(retired, open, evals);
      var (s', log) := EvaluateAll(retired, open, evals);
      RuleEventsAppend([Retired(gone)], log, rule);
      RuleEventsOne(Retired(gone), rule);
      assert RuleEvents(log, rule) + [] == [] + RuleEvents(log, rule) == RuleEvents(log, rule);
      PhaseIgnoresThrottle(s', Cleaned(s'.lastFired, MAX_COOLDOWN, cleanedAt), rule);
      if o.Evaluated? {
        var e :| e in evals && e.rule == rule && e.fired == o.fired;
        assert rule in EnabledRules(evals);
      }
  }

  lemma PhaseIgnoresThrottle(s: State, lastFired: map<RuleId, Time>, rule: RuleId)
    ensures PhaseOf(s.(lastFired := lastFired), rule) == PhaseOf(s, rule)
    ensures Inv(s.(lastFired := lastFired)) <==> Inv(s)
  {
  }

  ghost function ObservationOf(step: Step, rule: RuleId): Observation {
    if step.Restarted? then ProcessRestart
    else if rule !in EnabledRules(step.evals) then Disabled
    else Evaluated(exists e :: e in step.evals && e.rule == rule && e.fired)
  }

  lemma RunMoves(s: State, steps: seq<Step>, rule: RuleId, k: nat)
    requires AllAcceptable(steps) && Inv(s) && k < |steps|
    ensures Inv(StateAt(s, steps, k)) && Inv(StateAt(s, steps, k + 1))
    ensures Moves(PhaseOf(StateAt(s, steps, k), rule), ObservationOf(steps[k], rule),
                  PhaseOf(StateAt(s, steps, k + 1), rule),
                  RuleEvents(After(StateAt(s, steps, k), steps[k]).1, rule))
  {
    hide Inv, Moves, After;
    if k > 0 {
      RunMoves(s, steps, rule, k - 1);
    }
    StepMoves(StateAt(s, steps, k), steps[k], rule, ObservationOf(steps[k], rule));
  }

  // ----- The laws -----

  /** In every run each rule has at most one open incident. */
  lemma OneOpenIncident(s: State, steps: seq<Step>)
    requires AllAcceptable(steps) && Inv(s)
    ensures AtMostOneOpen(StateAt(s, steps, |steps|).history)
  {
    if steps != [] {
      RunMoves(s, steps, 0, |steps| - 1);
    }
  }

  /** Openings and closings take turns; the first is an opening unless an incident is open to begin with. */
  ghost predicate Alternate(events: seq<bool>, openAtStart: bool) {
    && (events != [] ==> events[0] == !openAtStart)
    && forall k :: 0 < k < |events| ==> events[k] != events[k - 1]
  }

  ghost function OpenAtEnd(events: seq<bool>, openAtStart: bool): bool {
    if events == [] then openAtStart else events[|events| - 1]
  }

  /** In every run a rule's incidents strictly alternate between opening and closing. */
  lemma {:induction false} OpeningsAndClosingsAlternate(s: State, steps: seq<Step>, rule: RuleId, n: nat)
    requires AllAcceptable(steps) && Inv(s) && n <= |steps|
    ensures var events := RuleEvents(LogAt(s, steps, n), rule);
            && Alternate(events, PhaseOf(s, rule).Open?)
            && OpenAtEnd(events, PhaseOf(s, rule).Open?) == PhaseOf(StateAt(s, steps, n), rule).Open?
  {
    hide RuleEvents, PhaseOf, Inv, After;
    RuleEventsOne(Resolved(rule), rule);
    if n > 0 {
      OpeningsAndClosingsAlternate(s, steps, rule, n - 1);
      RunMoves(s, steps, rule, n - 1);
      RuleEventsAppend(LogAt(s, steps, n - 1), After(StateAt(s, steps, n - 1), steps[n - 1]).1, rule);
    }
  }

  /**
   In every run from a fresh process, an evaluation of an enabled rule closes its open incident exactly
   when it is clear and the step just before it was a clear evaluation too. A pass in which the rule
   is firing or disabled, or a restart, starts the count again.
   */
  lemma ClosesAfterTwoClears(s: State, steps: seq<Step>, rule: RuleId, k: nat)
    requires AllAcceptable(steps) && Inv(s) && s.streaks == map[] && k < |steps|
    requires ObservationOf(steps[k], rule).Evaluated?
    ensures false in RuleEvents(After(StateAt(s, steps, k), steps[k]).1, rule)
            <==> PhaseOf(StateAt(s, steps, k), rule).Open?
                 && ObservationOf(steps[k], rule) == Evaluated(false)
                 && k > 0 && ObservationOf(steps[k - 1], rule) == Evaluated(false)
  {
    hide RuleEvents, ObservationOf, After, OpenRules, AtMostOneOpen;
    RunMoves(s, steps, rule, k);
    if k > 0 {
      RunMoves(s, steps, rule, k - 1);
    }
  }

  // ----- Cooldowns -----

  /** The clock readings of one pass lie between `from` and `to` and do not run backwards. */
  ghost predicate Timed(evals: seq<Evaluation>, from: Time, to: Time) {
    if evals == [] then from <= to
    else
      var last := evals[|evals| - 1];
      Timed(evals[..|evals| - 1], from, last.checkedAt) && last.checkedAt <= last.firedAt <= to
  }

  function EndOf(steps: seq<Step>, n: nat, from: Time): Time
    requires n <= |steps| && forall k :: 0 <= k < n ==> steps[k].Passed?
  {
    if n == 0 then from else steps[n - 1].cleanedAt
  }

  /** Passes of one process, one after the other. */
  ghost predicate TimedPasses(steps: seq<Step>, from: Time) {
    && (forall k :: 0 <= k < |steps| ==> steps[k].Passed?)
    && (forall k :: 0 <= k < |steps| ==> Timed(steps[k].evals, EndOf(steps, k, from), steps[k].cleanedAt))
  }

  /** A fire comes at least its rule's cooldown after every earlier fire of the rule, if that is an hour or less. */
  ghost predicate Spaced(log: seq<Action>) {
    forall i, j :: 0 <= i < j < |log| && log[i].Fired? && log[j].Fired? && log[i].rule == log[j].rule
                   && log[j].cooldown <= MAX_COOLDOWN ==>
      log[j].checkedAt >= log[i].firedAt + log[j].cooldown
  }

  /** Every fire so far is remembered, by itself or by a later one, or is an hour old. */
  ghost predicate Remembered(s: State, log: seq<Action>, now: Time) {
    forall f :: f in log && f.Fired? ==>
      && f.firedAt <= now
      && ((f.rule in s.lastFired && f.firedAt <= s.lastFired[f.rule]) || f.firedAt + MAX_COOLDOWN <= now)
  }

  lemma EvaluateOneSpaced(s: State, open: set<RuleId>, e: Evaluation, log: seq<Action>, now: Time)
    requires IsI32(e.cooldownSecs) && now <= e.checkedAt <= e.firedAt
    requires Spaced(log) && Remembered(s, log, now)
    ensures var (s', actions) := EvaluateOne(s, open, e);
            Spaced(log + actions) && Remembered(s', log + actions, e.firedAt)
  {
    hide Cooldown, Resolve;
    var (s', actions) := EvaluateOne(s, open, e);
    assert forall i :: 0 <= i < |log| ==> log[i] in log;
    if actions == [] {
      assert log + actions == log;
    } else {
      assert forall f :: f in log + actions ==> f in log || f == actions[0];
    }
  }

  lemma {:induction false} EvaluateAllSpaced(s: State, open: set<RuleId>, evals: seq<Evaluation>, log: seq<Action>,
                                             from: Time, to: Time)
    requires (forall e :: e in evals ==> IsI32(e.cooldownSecs)) && Timed(evals, from, to)
    requires Spaced(log) && Remembered(s, log, from)
    ensures var (s', actions) := EvaluateAll(s, open, evals);
            Spaced(log + actions) && Remembered(s', log + actions, to)
    decreases |evals|
  {
    hide Spaced, EvaluateOne;
    if evals == [] {
      assert log + [] == log;
    } else {
      var init, last := evals[..|evals| - 1], evals[|evals| - 1];
      EvaluateAllSpaced(s, open, init, log, from, last.checkedAt);
      var (before, actions) := EvaluateAll(s, open, init);
      EvaluateOneSpaced(before, open, last, log + actions, last.checkedAt);
      var more := EvaluateOne(before, open, last).1;
      assert log + actions + more == log + (actions + more);
    }
  }

  lemma PassSpaced(s: State, evals: seq<Evaluation>, log: seq<Action>, from: Time, cleanedAt: Time)
    requires (forall e :: e in evals ==> IsI32(e.cooldownSecs)) && Timed(evals, from, cleanedAt)
    requires Spaced(log) && Remembered(s, log, from)
    ensures var (s', actions) := Pass(s, evals, cleanedAt);
            Spaced(log + actions) && Remembered(s', log + actions, cleanedAt)
  {
    hide EvaluateAll, Timed;
    var open := OpenRules(s.history);
    var gone := open - EnabledRules(evals);
    var retired := s.(streaks := s.streaks - gone, history := Resolve(s.history, gone));
    var log' := log + [Retired(gone)];
    assert Spaced(log') && Remembered(retired, log', from);
    EvaluateAllSpaced(retired, open, evals, log', from, cleanedAt);
    var actions := EvaluateAll(retired, open, evals).1;
    assert log' + actions == log + ([Retired(gone)] + actions);
  }

  lemma {:induction false} RunSpaced(s: State, steps: seq<Step>, from: Time, n: nat)
    requires AllAcceptable(steps) && TimedPasses(steps, from) && n <= |steps|
    ensures Spaced(LogAt(s, steps, n)) && Remembered(StateAt(s, steps, n), LogAt(s, steps, n), EndOf(steps, n, from))
  {
    hide Spaced, Remembered, Pass, Timed;
    if n == 0 {
      NoFires(s, from);
    } else {
      RunSpaced(s, steps, from, n - 1);
      PassSpaced(StateAt(s, steps, n - 1), steps[n - 1].evals, LogAt(s, steps, n - 1), EndOf(steps, n - 1, from),
                 steps[n - 1].cleanedAt);
    }
  }

  lemma NoFires(s: State, now: Time)
    ensures Spaced([]) && Remembered(s, [], now)
  {
  }

  /**
   In every run of one process, two fires of a rule whose cooldown is an hour or less are at least that
   cooldown apart, pruning or not, and whether or not the fires could be recorded.
   */
  lemma FiresAreSpaced(s: State, steps: seq<Step>, from: Time)
    requires AllAcceptable(steps) && TimedPasses(steps, from)
    ensures Spaced(LogAt(s, steps, |steps|))
  {
    RunSpaced(s, steps, from, |steps|);
  }
}
