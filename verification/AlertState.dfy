/** The two in-memory trackers of the alert loop, as objects over the maps they keep. */
module AlertState {

  type RuleId = nat

  /** Milliseconds of a clock that does not run backwards. */
  type Time = nat

  const CLEAR_STREAK_TO_RESOLVE: nat := 2

  /** The `max_cooldown` given to `cleanup`: one hour. */
  const MAX_COOLDOWN: Time := 3_600_000

  /** A rule's `cooldown_secs as u64`, in milliseconds; a negative one wraps around. */
  function Cooldown(secs: int): Time
    requires -0x8000_0000 <= secs < 0x8000_0000
  {
    (if secs >= 0 then secs else secs + 0x1_0000_0000_0000_0000) * 1000
  }

  // ----- Clear streaks -----

  function Streak(streaks: map<RuleId, nat>, rule: RuleId): nat {
    if rule in streaks then streaks[rule] else 0
  }

  class ResolveTracker {
    var clearStreaks: map<RuleId, nat>

    constructor ()
      ensures clearStreaks == map[]
    {
      clearStreaks := map[];
    }

    method RecordFiring(rule: RuleId)
      modifies this
      ensures clearStreaks == old(clearStreaks) - {rule}
    {
      clearStreaks := clearStreaks - {rule};
    }

    method RecordClear(rule: RuleId) returns (resolve: bool)
      modifies this
      ensures clearStreaks == old(clearStreaks)[rule := Streak(old(clearStreaks), rule) + 1]
      ensures resolve <==> Streak(clearStreaks, rule) >= CLEAR_STREAK_TO_RESOLVE
    {
      if rule !in clearStreaks {
        clearStreaks := clearStreaks[rule := 0];
      }
      var streak := clearStreaks[rule] + 1;
      clearStreaks := clearStreaks[rule := streak];
      resolve := streak >= CLEAR_STREAK_TO_RESOLVE;
    }

    method Forget(rule: RuleId)
      modifies this
      ensures clearStreaks == old(clearStreaks) - {rule}
    {
      clearStreaks := clearStreaks - {rule};
    }
  }

  // ----- Cooldowns -----

  predicate Throttled(lastFired: map<RuleId, Time>, rule: RuleId, cooldown: Time, now: Time) {
    rule in lastFired && now < lastFired[rule] + cooldown
  }

  function Cleaned(lastFired: map<RuleId, Time>, maxCooldown: Time, now: Time): map<RuleId, Time> {
    map rule | rule in lastFired && now < lastFired[rule] + maxCooldown :: lastFired[rule]
  }

  class AlertThrottle {
    var lastFired: map<RuleId, Time>

    constructor ()
      ensures lastFired == map[]
    {
      lastFired := map[];
    }

    function IsThrottled(rule: RuleId, cooldown: Time, now: Time): bool
      reads this
    {
      Throttled(lastFired, rule, cooldown, now)
    }

    method RecordFired(rule: RuleId, now: Time)
      modifies this
      ensures lastFired == old(lastFired)[rule := now]
    {
      lastFired := lastFired[rule := now];
    }

    method Cleanup(maxCooldown: Time, now: Time)
      modifies this
      ensures lastFired == Cleaned(old(lastFired), maxCooldown, now)
    {
      lastFired := map rule | rule in lastFired && now < lastFired[rule] + maxCooldown :: lastFired[rule];
    }
  }

  /**
   Pruning at `now` never changes what a rule is told from then on exactly when its cooldown is no
   longer than the limit of the pruning.
   */
  lemma CleanupIsInvisible(cooldown: Time, maxCooldown: Time)
    ensures cooldown <= maxCooldown
            <==> forall lastFired: map<RuleId, Time>, rule, now: Time, later: Time | now <= later ::
                   Throttled(Cleaned(lastFired, maxCooldown, now), rule, cooldown, later)
                   == Throttled(lastFired, rule, cooldown, later)
  {
    if cooldown > maxCooldown {
      var lastFired: map<RuleId, Time> := map[0 := 0];
      assert Throttled(lastFired, 0, cooldown, maxCooldown);
      assert !Throttled(Cleaned(lastFired, maxCooldown, maxCooldown), 0, cooldown, maxCooldown);
    }
  }
}
