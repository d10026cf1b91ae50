/** For which cooldowns a rule's fires are always that far apart. */
module AlertCooldowns {
  import opened AlertState
  import opened AlertPass
  import opened AlertRuns

  /** In every run of one process, two fires of a rule with this cooldown are at least the cooldown apart. */
  ghost predicate AlwaysSpaced(secs: int)
    requires IsI32(secs)
  {
    forall s: State, steps, from: Time, i: nat, j: nat |
      && AllAcceptable(steps) && TimedPasses(steps, from)
      && i < j < |LogAt(s, steps, |steps|)|
      && LogAt(s, steps, |steps|)[i].Fired? && LogAt(s, steps, |steps|)[j].Fired?
      && LogAt(s, steps, |steps|)[i].rule == LogAt(s, steps, |steps|)[j].rule
      && LogAt(s, steps, |steps|)[j].cooldown == Cooldown(secs) ::
      LogAt(s, steps, |steps|)[j].checkedAt >= LogAt(s, steps, |steps|)[i].firedAt + Cooldown(secs)
  }

  // ----- A run that fires again after an hour -----

  lemma PassOfOne(s: State, e: Evaluation, cleanedAt: Time)
    requires IsI32(e.cooldownSecs) && OpenRules(s.history) <= {e.rule}
    ensures var (after, actions) := EvaluateOne(s, OpenRules(s.history), e);
            Pass(s, [e], cleanedAt)
            == (after.(lastFired := Cleaned(after.lastFired, MAX_COOLDOWN, cleanedAt)), [Retired({})] + actions)
  {
    hide EvaluateOne, Cleaned, OpenRules;
    var open := OpenRules(s.history);
    var none: set<RuleId> := {};
    assert EnabledRules([e]) == {e.rule} by { assert e in [e]; }
    assert open - EnabledRules([e]) == none;
    assert Resolve(s.history, none) == s.history;
    assert s.streaks - none == s.streaks;
    assert s.(streaks := s.streaks - none, history := Resolve(s.history, none)) == s;
    EvaluateAllOne(s, open, e);
  }

  lemma EvaluateAllOne(s: State, open: set<RuleId>, e: Evaluation)
    requires IsI32(e.cooldownSecs)
    ensures EvaluateAll(s, open, [e]) == EvaluateOne(s, open, e)
  {
    assert [e][..0] == [];
    assert EvaluateAll(s, open, []) == (s, []);
    var (after, actions) := EvaluateOne(s, open, e);
    assert [] + actions == actions;
  }

  const OPENED := [Incident(0, true)]
  const CLOSED := [Incident(0, false)]

  function Evaluate(secs: int, fired: bool, at: Time): Evaluation {
    Evaluation(0, fired, secs, at, at, true)
  }

  /** The rule fires, is clear twice, is pruned after an hour, and fires again. */
  function HourlySteps(secs: int): seq<Step> {
    [Passed([Evaluate(secs, true, 0)], 0), Passed([Evaluate(secs, false, 1)], 1),
     Passed([Evaluate(secs, false, 2)], MAX_COOLDOWN), Passed([Evaluate(secs, true, MAX_COOLDOWN)], MAX_COOLDOWN)]
  }

  function FireAt(secs: int, at: Time): Action
    requires IsI32(secs)
  {
    Fired(0, Cooldown(secs), at, at, true)
  }

  lemma OpenSets()
    ensures OpenRules([]) == {} && OpenRules(OPENED) == {0} && OpenRules(CLOSED) == {}
    ensures Resolve(OPENED, {0}) == CLOSED
    ensures [] + [Incident(0, true)] == OPENED
  {
  }

  lemma StillRemembered(now: Time)
    requires now < MAX_COOLDOWN
    ensures Cleaned(map[0 := 0], MAX_COOLDOWN, now) == map[0 := 0]
  {
  }

  lemma FirstFire(secs: int)
    requires IsI32(secs)
    ensures Pass(State(map[], map[], []), [Evaluate(secs, true, 0)], 0)
            == (State(map[], map[0 := 0], OPENED), [Retired({}), FireAt(secs, 0)])
  {
    hide Cooldown;
    var s := State(map[], map[], []);
    OpenSets();
    PassOfOne(s, Evaluate(secs, true, 0), 0);
    StillRemembered(0);
    var none: set<RuleId> := {};
    assert [Retired(none)] + [FireAt(secs, 0)] == [Retired(none), FireAt(secs, 0)];
  }

  lemma FirstClear(secs: int)
    requires IsI32(secs)
    ensures Pass(State(map[], map[0 := 0], OPENED), [Evaluate(secs, false, 1)], 1)
            == (State(map[0 := 1], map[0 := 0], OPENED), [Retired({})])
  {
    hide Cooldown;
    OpenSets();
    StillRemembered(1);
    PassOfOne(State(map[], map[0 := 0], OPENED), Evaluate(secs, false, 1), 1);
    var none: set<RuleId> := {};
    assert [Retired(none)] + [] == [Retired(none)];
  }

  lemma SecondClear(secs: int)
    requires IsI32(secs)
    ensures Pass(State(map[0 := 1], map[0 := 0], OPENED), [Evaluate(secs, false, 2)], MAX_COOLDOWN)
            == (State(map[], map[], CLOSED), [Retired({}), Resolved(0)])
  {
    hide Cooldown;
    OpenSets();
    PassOfOne(State(map[0 := 1], map[0 := 0], OPENED), Evaluate(secs, false, 2), MAX_COOLDOWN);
    var none: set<RuleId> := {};
    assert [Retired(none)] + [Resolved(0)] == [Retired(none), Resolved(0)];
  }

  lemma SecondFire(secs: int)
    requires IsI32(secs)
    ensures Pass(State(map[], map[], CLOSED), [Evaluate(secs, true, MAX_COOLDOWN)], MAX_COOLDOWN).1
            == [Retired({}), FireAt(secs, MAX_COOLDOWN)]
  {
    hide Cooldown;
    OpenSets();
    PassOfOne(State(map[], map[], CLOSED), Evaluate(secs, true, MAX_COOLDOWN), MAX_COOLDOWN);
    var none: set<RuleId> := {};
    assert [Retired(none)] + [FireAt(secs, MAX_COOLDOWN)] == [Retired(none), FireAt(secs, MAX_COOLDOWN)];
  }

  lemma TimedOne(e: Evaluation, from: Time, to: Time)
    requires from <= e.checkedAt <= e.firedAt <= to
    ensures Timed([e], from, to)
  {
    assert [e][..0] == [];
  }

  lemma HourlyIsTimed(secs: int)
    requires IsI32(secs)
    ensures AllAcceptable(HourlySteps(secs)) && TimedPasses(HourlySteps(secs), 0)
  {
    hide Timed;
    var steps := HourlySteps(secs);
    TimedOne(Evaluate(secs, true, 0), 0, 0);
    TimedOne(Evaluate(secs, false, 1), 0, 1);
    TimedOne(Evaluate(secs, false, 2), 1, MAX_COOLDOWN);
    TimedOne(Evaluate(secs, true, MAX_COOLDOWN), MAX_COOLDOWN, MAX_COOLDOWN);
    forall k | 0 <= k < |steps|
      ensures Acceptable(steps[k].evals)
    {
      assert |steps[k].evals| == 1;
    }
  }

  /** Two fires, an hour apart, both recorded. */
  lemma FiresAfterAnHour(secs: int)
    requires IsI32(secs)
    ensures AllAcceptable(HourlySteps(secs)) && TimedPasses(HourlySteps(secs), 0)
    ensures LogAt(State(map[], map[], []), HourlySteps(secs), 4)
            == [Retired({}), FireAt(secs, 0), Retired({}), Retired({}), Resolved(0), Retired({}),
                FireAt(secs, MAX_COOLDOWN)]
  {
    hide Pass, Cooldown;
    var steps, s := HourlySteps(secs), State(map[], map[], []);
    HourlyIsTimed(secs);
    FirstFire(secs);
    FirstClear(secs);
    SecondClear(secs);
    SecondFire(secs);
    assert StateAt(s, steps, 1) == State(map[], map[0 := 0], OPENED);
    assert StateAt(s, steps, 2) == State(map[0 := 1], map[0 := 0], OPENED);
    assert StateAt(s, steps, 3) == State(map[], map[], CLOSED);
    assert LogAt(s, steps, 1) == [Retired({}), FireAt(secs, 0)];
    assert LogAt(s, steps, 2) == LogAt(s, steps, 1) + [Retired({})];
    assert LogAt(s, steps, 3) == LogAt(s, steps, 2) + [Retired({}), Resolved(0)];
    assert LogAt(s, steps, 4) == LogAt(s, steps, 3) + [Retired({}), FireAt(secs, MAX_COOLDOWN)];
  }

  // ----- The limit -----

  lemma WithinAnHour(secs: int)
    requires IsI32(secs)
    ensures Cooldown(secs) <= MAX_COOLDOWN <==> 0 <= secs <= 3600
  {
  }

  /** Fires keep a rule's cooldown in every run exactly if it is an hour or less; a negative one is longer. */
  lemma SpacedExactlyWithinAnHour(secs: int)
    requires IsI32(secs)
    ensures AlwaysSpaced(secs) <==> Cooldown(secs) <= MAX_COOLDOWN
    ensures AlwaysSpaced(secs) <==> 0 <= secs <= 3600
  {
    WithinAnHour(secs);
    hide LogAt, AllAcceptable, TimedPasses, Cooldown;
    if Cooldown(secs) <= MAX_COOLDOWN {
      forall s: State, steps, from: Time, i: nat, j: nat |
        && AllAcceptable(steps) && TimedPasses(steps, from)
        && i < j < |LogAt(s, steps, |steps|)|
        && LogAt(s, steps, |steps|)[i].Fired? && LogAt(s, steps, |steps|)[j].Fired?
        && LogAt(s, steps, |steps|)[i].rule == LogAt(s, steps, |steps|)[j].rule
        && LogAt(s, steps, |steps|)[j].cooldown == Cooldown(secs)
        ensures LogAt(s, steps, |steps|)[j].checkedAt >= LogAt(s, steps, |steps|)[i].firedAt + Cooldown(secs)
      {
        FiresAreSpaced(s, steps, from);
      }
    } else {
      FiresAfterAnHour(secs);
      var s, steps := State(map[], map[], []), HourlySteps(secs);
      var log := LogAt(s, steps, |steps|);
      assert log[1] == FireAt(secs, 0) && log[6] == FireAt(secs, MAX_COOLDOWN);
    }
  }
}
