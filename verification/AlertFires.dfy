/** Exactly when a rule fires, over runs of one process that starts with empty trackers. */
module AlertFires {
  import opened AlertState
  import opened AlertPass
  import opened AlertRuns

  ghost function FireOf(e: Evaluation): Action
    requires IsI32(e.cooldownSecs)
  {
    Fired(e.rule, Cooldown(e.cooldownSecs), e.checkedAt, e.firedAt, e.recorded)
  }

  ghost predicate IsFireOf(a: Action, rule: RuleId) {
    a.Fired? && a.rule == rule
  }

  // ----- One pass -----

  /** The evaluation is firing, its rule had no open incident, and no fire that is remembered is too recent. */
  ghost predicate Fires(s: State, open: set<RuleId>, e: Evaluation)
    requires IsI32(e.cooldownSecs)
  {
    && e.fired && e.rule !in open
    && (e.rule in s.lastFired ==> e.checkedAt >= s.lastFired[e.rule] + Cooldown(e.cooldownSecs))
  }

  lemma EvaluateOneFires(s: State, open: set<RuleId>, e: Evaluation)
    requires IsI32(e.cooldownSecs)
    ensures var (s', actions) := EvaluateOne(s, open, e);
            && (forall a, r :: a in actions && IsFireOf(a, r) ==> a == FireOf(e) && r == e.rule)
            && (FireOf(e) in actions <==> Fires(s, open, e))
            && s'.lastFired == (if Fires(s, open, e) then s.lastFired[e.rule := e.firedAt] else s.lastFired)
            && (Fires(s, open, e) && e.recorded ==> e.rule in OpenRules(s'.history))
  {
    hide Cooldown, Resolve;
    if Fires(s, open, e) && e.recorded {
      OpenedOpenRules(s.history, e.rule);
    }
  }

  ghost predicate NoneFires(s: State, open: set<RuleId>, evals: seq<Evaluation>, rule: RuleId)
    requires forall e :: e in evals ==> IsI32(e.cooldownSecs)
  {
    forall e :: e in evals && e.rule == rule ==> !Fires(s, open, e)
  }

  /** The fires logged are those of the evaluations that fire from `s` on, and each is remembered. */
  ghost predicate FiresOf(s: State, open: set<RuleId>, evals: seq<Evaluation>, lastFired: map<RuleId, Time>,
                          actions: seq<Action>)
    requires forall e :: e in evals ==> IsI32(e.cooldownSecs)
  {
    && (forall a :: a in actions && a.Fired? ==> exists e :: e in evals && a == FireOf(e) && Fires(s, open, e))
    && (forall e :: e in evals && Fires(s, open, e) ==>
          FireOf(e) in actions && e.rule in lastFired && lastFired[e.rule] == e.firedAt)
    && (forall r :: NoneFires(s, open, evals, r) ==> SameFire(s.lastFired, lastFired, r))
  }

  lemma {:induction false} EvaluateAllFires(s: State, open: set<RuleId>, evals: seq<Evaluation>)
    requires Acceptable(evals)
    ensures FiresOf(s, open, evals, EvaluateAll(s, open, evals).0.lastFired, EvaluateAll(s, open, evals).1)
    decreases |evals|
  {
    hide EvaluateOne, FiresOf, Fires;
    if evals == [] {
      NothingFires(s, open);
    } else {
      var init, last := evals[..|evals| - 1], evals[|evals| - 1];
      NotBefore(evals);
      EvaluateAllFires(s, open, init);
      var (before, actions) := EvaluateAll(s, open, init);
      EvaluateOneFires(before, open, last);
      var (after, more) := EvaluateOne(before, open, last);
      OneMoreFires(s, open, evals, before, actions, after, more);
    }
  }

  lemma NothingFires(s: State, open: set<RuleId>)
    ensures FiresOf(s, open, [], s.lastFired, [])
  {
  }

  lemma OneMoreFires(s: State, open: set<RuleId>, evals: seq<Evaluation>, before: State, actions: seq<Action>,
                     after: State, more: seq<Action>)
    requires evals != [] && Acceptable(evals)
    requires FiresOf(s, open, evals[..|evals| - 1], before.lastFired, actions)
    requires var last := evals[|evals| - 1];
             && (forall a, r :: a in more && IsFireOf(a, r) ==> a == FireOf(last) && r == last.rule)
             && (FireOf(last) in more <==> Fires(before, open, last))
             && after.lastFired == (if Fires(before, open, last) then before.lastFired[last.rule := last.firedAt]
                                    else before.lastFired)
    ensures FiresOf(s, open, evals, after.lastFired, actions + more)
  {
    hide Fires, FireOf;
    var init, last := evals[..|evals| - 1], evals[|evals| - 1];
    assert evals == init + [last];
    NotBefore(evals);
    assert NoneFires(s, open, init, last.rule);
    FiresByThrottle(s, before, open, last);
    forall a | a in actions + more && a.Fired?
      ensures exists e :: e in evals && a == FireOf(e) && Fires(s, open, e)
    {
      if a in actions {
        var e :| e in init && a == FireOf(e) && Fires(s, open, e);
        assert e in evals;
      } else {
        assert IsFireOf(a, a.rule) && last in evals;
      }
    }
    forall e | e in evals && Fires(s, open, e)
      ensures FireOf(e) in actions + more && e.rule in after.lastFired && after.lastFired[e.rule] == e.firedAt
    {
      if e != last {
        assert e in init && e.rule in EnabledRules(init);
      }
    }
    forall r | NoneFires(s, open, evals, r)
      ensures SameFire(s.lastFired, after.lastFired, r)
    {
      assert last in evals && forall e :: e in init ==> e in evals;
      assert NoneFires(s, open, init, r);
    }
  }

  ghost predicate SameFire(a: map<RuleId, Time>, b: map<RuleId, Time>, rule: RuleId) {
    (rule in a <==> rule in b) && (rule in a ==> a[rule] == b[rule])
  }

  lemma NotBefore(evals: seq<Evaluation>)
    requires evals != [] && Acceptable(evals)
    ensures Acceptable(evals[..|evals| - 1])
    ensures evals[|evals| - 1].rule !in EnabledRules(evals[..|evals| - 1])
  {
  }

  // ----- What is remembered over a run -----

  lemma {:induction false} TimedBounds(evals: seq<Evaluation>, from: Time, to: Time)
    requires Timed(evals, from, to)
    ensures from <= to && forall e :: e in evals ==> from <= e.checkedAt <= e.firedAt <= to
    decreases |evals|
  {
    if evals != [] {
      var init, last := evals[..|evals| - 1], evals[|evals| - 1];
      assert evals == init + [last];
      TimedBounds(init, from, last.checkedAt);
    }
  }

  /**
   What is remembered of a rule is its latest fire, unless that was pruned, being an hour old at the
   end of the last pass.
   */
  ghost predicate Recalls(s: State, log: seq<Action>, cleaned: Time) {
    && (forall r :: r in s.lastFired ==> cleaned < s.lastFired[r] + MAX_COOLDOWN)
    && (forall r :: r in s.lastFired ==> exists f :: f in log && IsFireOf(f, r) && f.firedAt == s.lastFired[r])
    && (forall f :: f in log && f.Fired? ==> f.firedAt <= cleaned)
    && forall f :: f in log && f.Fired? ==>
         (f.rule in s.lastFired && f.firedAt <= s.lastFired[f.rule]) || f.firedAt + MAX_COOLDOWN <= cleaned
  }

  lemma PassFires(s: State, evals: seq<Evaluation>, cleanedAt: Time) returns (lastFired: map<RuleId, Time>)
    requires Acceptable(evals)
    ensures var (s', actions) := Pass(s, evals, cleanedAt);
            && FiresOf(s, OpenRules(s.history), evals, lastFired, actions)
            && (forall r :: r in s'.lastFired <==> r in lastFired && cleanedAt < lastFired[r] + MAX_COOLDOWN)
            && (forall r :: r in s'.lastFired ==> s'.lastFired[r] == lastFired[r])
  {
    hide EvaluateAll, OpenRules, Fires, FiresOf;
    var open := OpenRules(s.history);
    var gone := open - EnabledRules(evals);
    var retired := s.(streaks := s.streaks - gone, history := Resolve(s.history, gone));
    EvaluateAllFires(retired, open, evals);
    var (after, actions) := EvaluateAll(retired, open, evals);
    lastFired := after.lastFired;
    SameFires(s, retired, open, evals, lastFired, actions, Retired(gone));
  }

  lemma FiresByThrottle(s: State, s': State, open: set<RuleId>, e: Evaluation)
    requires IsI32(e.cooldownSecs) && SameFire(s.lastFired, s'.lastFired, e.rule)
    ensures Fires(s, open, e) <==> Fires(s', open, e)
  {
  }

  lemma SameFires(s: State, s': State, open: set<RuleId>, evals: seq<Evaluation>, lastFired: map<RuleId, Time>,
                  actions: seq<Action>, first: Action)
    requires (forall e :: e in evals ==> IsI32(e.cooldownSecs)) && s.lastFired == s'.lastFired && !first.Fired?
    requires FiresOf(s', open, evals, lastFired, actions)
    ensures FiresOf(s, open, evals, lastFired, [first] + actions)
  {
    hide Fires, FireOf;
    forall e | e in evals
      ensures Fires(s, open, e) <==> Fires(s', open, e)
    {
      FiresByThrottle(s, s', open, e);
    }
    forall r
      ensures NoneFires(s, open, evals, r) <==> NoneFires(s', open, evals, r)
    {
    }
  }

  lemma PassRecalls(s: State, evals: seq<Evaluation>, log: seq<Action>, from: Time, cleanedAt: Time)
    requires Acceptable(evals) && Timed(evals, from, cleanedAt) && Recalls(s, log, from)
    ensures var (s', actions) := Pass(s, evals, cleanedAt);
            Recalls(s', log + actions, cleanedAt)
  {
    hide Pass, OpenRules, Fires, Timed;
    TimedBounds(evals, from, cleanedAt);
    var lastFired := PassFires(s, evals, cleanedAt);
    var (s', actions) := Pass(s, evals, cleanedAt);
    var open := OpenRules(s.history);
    forall r | r in s'.lastFired
      ensures exists f :: f in log + actions && IsFireOf(f, r) && f.firedAt == s'.lastFired[r]
    {
      if NoneFires(s, open, evals, r) {
        var f :| f in log && IsFireOf(f, r) && f.firedAt == s.lastFired[r];
        assert f in log + actions;
      } else {
        var e :| e in evals && e.rule == r && Fires(s, open, e);
        assert FireOf(e) in log + actions && IsFireOf(FireOf(e), r);
      }
    }
    forall f | f in log + actions && f.Fired?
      ensures f.firedAt <= cleanedAt
      ensures (f.rule in s'.lastFired && f.firedAt <= s'.lastFired[f.rule]) || f.firedAt + MAX_COOLDOWN <= cleanedAt
    {
      if f in actions {
        var e :| e in evals && f == FireOf(e) && Fires(s, open, e);
      } else if !NoneFires(s, open, evals, f.rule) {
        var e :| e in evals && e.rule == f.rule && Fires(s, open, e);
      }
    }
  }

  lemma {:induction false} RunRecalls(s: State, steps: seq<Step>, from: Time, k: nat)
    requires AllAcceptable(steps) && TimedPasses(steps, from) && s.lastFired == map[] && k <= |steps|
    ensures Recalls(StateAt(s, steps, k), LogAt(s, steps, k), EndOf(steps, k, from))
  {
    hide Recalls, Pass, Timed;
    if k == 0 {
      NothingRecalled(s, from);
    } else {
      RunRecalls(s, steps, from, k - 1);
      PassRecalls(StateAt(s, steps, k - 1), steps[k - 1].evals, LogAt(s, steps, k - 1), EndOf(steps, k - 1, from),
                  steps[k - 1].cleanedAt);
    }
  }

  lemma NothingRecalled(s: State, from: Time)
    requires s.lastFired == map[]
    ensures Recalls(s, [], from)
  {
  }

  // ----- The laws -----

  /** No earlier fire of the rule is more recent than the cooldown, except those that pruning has forgotten. */
  ghost predicate OutOfCooldown(log: seq<Action>, rule: RuleId, cooldown: Time, now: Time, cleaned: Time) {
    forall f :: f in log && IsFireOf(f, rule) ==> now >= f.firedAt + cooldown || cleaned >= f.firedAt + MAX_COOLDOWN
  }

  lemma FiresByLog(s: State, log: seq<Action>, cleaned: Time, e: Evaluation)
    requires IsI32(e.cooldownSecs) && Recalls(s, log, cleaned)
    ensures Fires(s, OpenRules(s.history), e)
            <==> e.fired && e.rule !in OpenRules(s.history)
                 && OutOfCooldown(log, e.rule, Cooldown(e.cooldownSecs), e.checkedAt, cleaned)
  {
    hide OpenRules, Cooldown;
    if e.rule in s.lastFired {
      var f :| f in log && IsFireOf(f, e.rule) && f.firedAt == s.lastFired[e.rule];
    }
  }

  lemma OneEvaluation(evals: seq<Evaluation>, e: Evaluation)
    requires Acceptable(evals) && e in evals
    ensures forall x :: x in evals && x.rule == e.rule ==> x == e
  {
  }

  lemma {:induction false} OpensByFire(log: seq<Action>, rule: RuleId)
    ensures true in RuleEvents(log, rule) <==> exists a :: a in log && IsFireOf(a, rule) && a.recorded
  {
    if log != [] {
      var init, last := log[..|log| - 1], log[|log| - 1];
      assert log == init + [last];
      OpensByFire(init, rule);
      if a :| a in log && IsFireOf(a, rule) && a.recorded {
        assert a in init || a == last;
      }
    }
  }

  /** A rule without an open incident has one behind a step exactly if the step logs a recorded fire. */
  lemma OpensExactly(s: State, steps: seq<Step>, rule: RuleId, k: nat)
    requires AllAcceptable(steps) && Inv(s) && k < |steps|
    requires rule !in OpenRules(StateAt(s, steps, k).history)
    ensures rule in OpenRules(StateAt(s, steps, k + 1).history)
            <==> exists a :: a in After(StateAt(s, steps, k), steps[k]).1 && IsFireOf(a, rule) && a.recorded
  {
    hide After, OpenRules, ObservationOf, Inv, RuleEvents;
    RunMoves(s, steps, rule, k);
    OpensByFire(After(StateAt(s, steps, k), steps[k]).1, rule);
  }

  /**
   In every run of a process that starts with empty trackers, an evaluation fires exactly if its
   condition holds, its rule had no open incident when the pass started, and each earlier fire of the
   rule is a cooldown back, or was an hour back at the end of the pass before. A recorded fire opens an
   incident. Nothing else fires.
   */
  lemma FiresExactly(s: State, steps: seq<Step>, from: Time, k: nat, e: Evaluation)
    requires AllAcceptable(steps) && TimedPasses(steps, from) && s.lastFired == map[] && AtMostOneOpen(s.history)
    requires s.streaks == map[] && k < |steps| && e in steps[k].evals
    ensures var before, actions := StateAt(s, steps, k), After(StateAt(s, steps, k), steps[k]).1;
            && (FireOf(e) in actions
                <==> e.fired && e.rule !in OpenRules(before.history)
                     && OutOfCooldown(LogAt(s, steps, k), e.rule, Cooldown(e.cooldownSecs), e.checkedAt,
                                      EndOf(steps, k, from)))
            && (forall a :: a in actions && IsFireOf(a, e.rule) ==> a == FireOf(e))
            && (e.rule in OpenRules(StateAt(s, steps, k + 1).history) && e.rule !in OpenRules(before.history)
                <==> FireOf(e) in actions && e.recorded)
  {
    hide Pass, OpenRules, Cooldown, Recalls, AtMostOneOpen, Timed;
    var before := StateAt(s, steps, k);
    RunRecalls(s, steps, from, k);
    var lastFired := PassFires(before, steps[k].evals, steps[k].cleanedAt);
    FiresByLog(before, LogAt(s, steps, k), EndOf(steps, k, from), e);
    OneEvaluation(steps[k].evals, e);
    if e.rule !in OpenRules(before.history) {
      FreshTrackers(s);
      OpensExactly(s, steps, e.rule, k);
    }
  }

  lemma FreshTrackers(s: State)
    requires AtMostOneOpen(s.history) && s.streaks == map[]
    ensures Inv(s)
  {
  }

  /** With a cooldown of an hour or less, pruning plays no part. */
  lemma FiresOutOfCooldownExactly(s: State, steps: seq<Step>, from: Time, k: nat, e: Evaluation)
    requires AllAcceptable(steps) && TimedPasses(steps, from) && s.lastFired == map[] && AtMostOneOpen(s.history)
    requires s.streaks == map[] && k < |steps| && e in steps[k].evals && Cooldown(e.cooldownSecs) <= MAX_COOLDOWN
    ensures FireOf(e) in After(StateAt(s, steps, k), steps[k]).1
            <==> e.fired && e.rule !in OpenRules(StateAt(s, steps, k).history)
                 && forall f :: f in LogAt(s, steps, k) && IsFireOf(f, e.rule) ==>
                      e.checkedAt >= f.firedAt + Cooldown(e.cooldownSecs)
  {
    hide StateAt, LogAt, After, Cooldown, Timed, OpenRules, AtMostOneOpen;
    FiresExactly(s, steps, from, k, e);
    TimedBounds(steps[k].evals, EndOf(steps, k, from), steps[k].cleanedAt);
  }
}
