/** One pass of the alert loop over the rules of a tenant, with the database answering every call. */
module AlertPass {
  import opened AlertState

  /** A row of the alert history; open until it is resolved. */
  datatype Incident = Incident(rule: RuleId, open: bool)

  /** What one pass finds out about one enabled rule. */
  datatype Evaluation = Evaluation(rule: RuleId, fired: bool, cooldownSecs: int, checkedAt: Time, firedAt: Time, recorded: bool)

  datatype State = State(streaks: map<RuleId, nat>, lastFired: map<RuleId, Time>, history: seq<Incident>)

  datatype Action =
    | Fired(rule: RuleId, cooldown: Time, checkedAt: Time, firedAt: Time, recorded: bool)
    | Resolved(rule: RuleId)
    | Retired(rules: set<RuleId>)  // incidents whose rule is disabled or gone

  predicate IsI32(n: int) {
    -0x8000_0000 <= n < 0x8000_0000
  }

  function OpenRules(history: seq<Incident>): (rules: set<RuleId>)
    ensures forall r :: r in rules <==> Incident(r, true) in history
  {
    set h | h in history && h.open :: h.rule
  }

  /** `resolve_alerts_for_rule`, for each of `rules`. */
  function Resolve(history: seq<Incident>, rules: set<RuleId>): (out: seq<Incident>)
    ensures |out| == |history|
    ensures forall k :: 0 <= k < |history| ==>
              out[k] == Incident(history[k].rule, history[k].open && history[k].rule !in rules)
  {
    seq(|history|, k requires 0 <= k < |history| => Incident(history[k].rule, history[k].open && history[k].rule !in rules))
  }

  // ----- The pass as a function -----

  function EnabledRules(evals: seq<Evaluation>): set<RuleId> {
    set e | e in evals :: e.rule
  }

  /** One arm of the match on (fired, open incident), where `open` is as read at the start of the pass. */
  function EvaluateOne(s: State, open: set<RuleId>, e: Evaluation): (State, seq<Action>)
    requires IsI32(e.cooldownSecs)
  {
    var cooldown := Cooldown(e.cooldownSecs);
    if e.fired && e.rule in open then
      (s.(streaks := s.streaks - {e.rule}), [])
    else if e.fired then
      var s := s.(streaks := s.streaks - {e.rule});
      if Throttled(s.lastFired, e.rule, cooldown, e.checkedAt) then (s, [])
      else
        (s.(history := if e.recorded then s.history + [Incident(e.rule, true)] else s.history,
            lastFired := s.lastFired[e.rule := e.firedAt]),
         [Fired(e.rule, cooldown, e.checkedAt, e.firedAt, e.recorded)])
    else if e.rule in open then
      var streak := Streak(s.streaks, e.rule) + 1;
      if streak < CLEAR_STREAK_TO_RESOLVE then (s.(streaks := s.streaks[e.rule := streak]), [])
      else (s.(streaks := s.streaks - {e.rule}, history := Resolve(s.history, {e.rule})), [Resolved(e.rule)])
    else
      (s.(streaks := s.streaks - {e.rule}), [])
  }

  ghost predicate Acceptable(evals: seq<Evaluation>) {
    && (forall e :: e in evals ==> IsI32(e.cooldownSecs))
    && (forall j, k :: 0 <= j < k < |evals| ==> evals[j].rule != evals[k].rule)
  }

  function EvaluateAll(s: State, open: set<RuleId>, evals: seq<Evaluation>): (State, seq<Action>)
    requires forall e :: e in evals ==> IsI32(e.cooldownSecs)
  {
    if evals == [] then (s, [])
    else
      var (before, log) := EvaluateAll(s, open, evals[..|evals| - 1]);
      var (after, actions) := EvaluateOne(before, open, evals[|evals| - 1]);
      (after, log + actions)
  }

  function Pass(s: State, evals: seq<Evaluation>, cleanedAt: Time): (State, seq<Action>)
    requires forall e :: e in evals ==> IsI32(e.cooldownSecs)
  {
    var open := OpenRules(s.history);
    var gone := open - EnabledRules(evals);
    var s := s.(streaks := s.streaks - gone, history := Resolve(s.history, gone));
    var (s, log) := EvaluateAll(s, open, evals);
    (s.(lastFired := Cleaned(s.lastFired, MAX_COOLDOWN, cleanedAt)), [Retired(gone)] + log)
  }

  // ----- The pass as it is run -----

  class AlertLoop {
    const tracker: ResolveTracker
    const throttle: AlertThrottle
    var history: seq<Incident>
    ghost var log: seq<Action>

    ghost function Current(): State
      reads this, tracker, throttle
    {
      State(tracker.clearStreaks, throttle.lastFired, history)
    }

    /** A fresh process over the history already in the database. */
    constructor (history: seq<Incident>)
      ensures fresh(tracker) && fresh(throttle)
      ensures Current() == State(map[], map[], history) && log == []
    {
      tracker := new ResolveTracker();
      throttle := new AlertThrottle();
      this.history := history;
      log := [];
    }

    /** `run_alert_evaluation` for one tenant; `evals` are its enabled rules in the order they are listed. */
    method RunPass(evals: seq<Evaluation>, cleanedAt: Time)
      requires Acceptable(evals)
      modifies this, tracker, throttle
      ensures Current() == Pass(old(Current()), evals, cleanedAt).0
      ensures log == old(log) + Pass(old(Current()), evals, cleanedAt).1
    {
      var open := OpenRules(history);
      var enabled := EnabledRules(evals);
      ghost var gone := open - enabled;
      RetireMissing(open, enabled);
      log := log + [Retired(gone)];
      ghost var start, logged := Current(), log;
      assert logged + [] == logged;
      for k := 0 to |evals|
        invariant Current() == EvaluateAll(start, open, evals[..k]).0
        invariant log == logged + EvaluateAll(start, open, evals[..k]).1
      {
        assert evals[..k + 1][..k] == evals[..k];
        ghost var logged', actions := log, EvaluateOne(Current(), open, evals[k]).1;
        RunRule(open, evals[k]);
        assert logged + (EvaluateAll(start, open, evals[..k]).1 + actions) == logged' + actions;
      }
      assert evals[..|evals|] == evals;
      ghost var all := EvaluateAll(start, open, evals).1;
      assert old(log) + ([Retired(gone)] + all) == old(log) + [Retired(gone)] + all;
      throttle.Cleanup(MAX_COOLDOWN, cleanedAt);
    }

    /** Closes, silently, the incidents whose rule is not enabled any more. */
    method RetireMissing(open: set<RuleId>, enabled: set<RuleId>)
      modifies this`history, tracker
      ensures history == Resolve(old(history), open - enabled)
      ensures tracker.clearStreaks == old(tracker.clearStreaks) - (open - enabled)
    {
      var left := open;
      assert Resolve(history, {}) == history;
      while left != {}
        invariant left <= open
        invariant history == Resolve(old(history), (open - left) - enabled)
        invariant tracker.clearStreaks == old(tracker.clearStreaks) - ((open - left) - enabled)
        decreases left
      {
        var rule :| rule in left;
        if rule !in enabled {
          history := Resolve(history, {rule});
          tracker.Forget(rule);
        }
        left := left - {rule};
      }
    }

    /** The body of the loop over the rules. */
    method RunRule(open: set<RuleId>, e: Evaluation)
      requires IsI32(e.cooldownSecs)
      modifies this, tracker, throttle
      ensures Current() == EvaluateOne(old(Current()), open, e).0
      ensures log == old(log) + EvaluateOne(old(Current()), open, e).1
    {
      assert log + [] == log;
      if e.fired && e.rule in open {
        tracker.RecordFiring(e.rule);
      } else if e.fired {
        tracker.RecordFiring(e.rule);
        if throttle.IsThrottled(e.rule, Cooldown(e.cooldownSecs), e.checkedAt) {
          return;
        }
        if e.recorded {
          history := history + [Incident(e.rule, true)];
        }
        throttle.RecordFired(e.rule, e.firedAt);
        log := log + [Fired(e.rule, Cooldown(e.cooldownSecs), e.checkedAt, e.firedAt, e.recorded)];
      } else if e.rule in open {
        var resolve := tracker.RecordClear(e.rule);
        if !resolve {
          return;
        }
        history := Resolve(history, {e.rule});
        tracker.Forget(e.rule);
        log := log + [Resolved(e.rule)];
      } else {
        tracker.Forget(e.rule);
      }
    }
  }
}
