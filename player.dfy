// A player's herbalism progress (player/HerbalismPlayer.java): level and
// experience, plant limits, statistics, ability levels, and the fertilizer
// cooldown and active-effect maps whose expired entries are dropped when
// queried. Configuration values and `now` are parameters.

module Players {
  import opened JavaNum
  import opened Ids

  /** The configuration values a player reads. */
  datatype PlayerConfig = PlayerConfig(
    maxLevel: int,
    baseTotalPlants: int,
    maxTotalPlants: int,
    expA: real,
    expB: real,
    expC: real)

  /** `getExperienceRequired(level)`: the quadratic formula a*l*l + b*l + c,
      cast to long. */
  function ExperienceRequired(cfg: PlayerConfig, level: int): (r: int)
    ensures var x := cfg.expA * (level * level) as real + cfg.expB * level as real + cfg.expC;
      r as real - 1.0 < x < r as real + 1.0
  {
    TruncToInt(cfg.expA * (level * level) as real + cfg.expB * level as real + cfg.expC)
  }

  /** `canLevelUp`: below the maximum level and holding at least the
      experience the current level requires. */
  predicate CanLevelUpAt(cfg: PlayerConfig, level: int, experience: int)
  {
    level < cfg.maxLevel && experience >= ExperienceRequired(cfg, level)
  }

  /** The level `checkLevelUp` stops at: it climbs one level at a time while
      `canLevelUp` holds. Experience is never spent. */
  function LevelReached(cfg: PlayerConfig, level: int, experience: int): int
    decreases cfg.maxLevel - level
  {
    if CanLevelUpAt(cfg, level, experience) then LevelReached(cfg, level + 1, experience) else level
  }

  /** The loop never lowers the level, only climbs to the maximum, and stops
      where the next step is not affordable. */
  lemma {:induction false} LevelReachedStops(cfg: PlayerConfig, level: int, experience: int)
    ensures LevelReached(cfg, level, experience) >= level
    ensures LevelReached(cfg, level, experience) > level ==> LevelReached(cfg, level, experience) <= cfg.maxLevel
    ensures !CanLevelUpAt(cfg, LevelReached(cfg, level, experience), experience)
    decreases cfg.maxLevel - level
  {
    if CanLevelUpAt(cfg, level, experience) {
      LevelReachedStops(cfg, level + 1, experience);
    }
  }

  /** Every level passed on the way was paid for: the experience reached the
      requirement of each level climbed from. */
  lemma {:induction false} LevelReachedEarned(cfg: PlayerConfig, level: int, experience: int, k: int)
    requires level <= k < LevelReached(cfg, level, experience)
    ensures experience >= ExperienceRequired(cfg, k) && k < cfg.maxLevel
    decreases cfg.maxLevel - level
  {
    if k > level {
      LevelReachedEarned(cfg, level + 1, experience, k);
    }
  }

  /** More experience never yields a lower level. */
  lemma {:induction false} LevelReachedMonotone(cfg: PlayerConfig, level: int, e1: int, e2: int)
    requires e1 <= e2
    ensures LevelReached(cfg, level, e1) <= LevelReached(cfg, level, e2)
    decreases cfg.maxLevel - level
  {
    if CanLevelUpAt(cfg, level, e1) {
      LevelReachedMonotone(cfg, level + 1, e1, e2);
    } else {
      LevelReachedStops(cfg, level, e2);
    }
  }

  // -----------------------------------------------------------------------
  // Expiry maps: fertilizer type or effect name -> end time in milliseconds.

  /** An entry is active when it exists and its end time is still ahead. */
  predicate Active(m: map<string, int>, key: string, now: int)
  {
    key in m && now < m[key]
  }

  /** The map after a query: an entry whose end time has come is dropped. */
  function DropExpired(m: map<string, int>, key: string, now: int): (r: map<string, int>)
    ensures key in r <==> Active(m, key, now)
    ensures forall k :: k != key ==> (k in r <==> k in m)
    ensures forall k :: k in r ==> r[k] == m[k]
  {
    if key in m && now >= m[key] then m - {key} else m
  }

  /** `getCooldownRemaining` / `getEffectRemaining`: whole seconds left,
      zero without an entry. */
  function RemainingSeconds(m: map<string, int>, key: string, now: int): (r: int)
    ensures r >= 0
    ensures r > 0 ==> Active(m, key, now)
    ensures key in m ==> r * 1000 <= Max(0, m[key] - now) < (r + 1) * 1000
    ensures key !in m ==> r == 0
  {
    if key !in m then 0 else JavaDiv(Max(0, m[key] - now), 1000)
  }

  class HerbalismPlayer {
    const uuid: Uuid
    const name: string
    const config: PlayerConfig
    var level: int
    var experience: int
    var totalPlants: int
    var maxPlants: int
    var totalHarvests: int
    var totalFertilizersUsed: int
    var totalCropsPlanted: int
    var totalPlayTime: int
    var firstJoined: int
    var lastSeen: int
    var abilities: map<string, int>
    var fertilizerCooldowns: map<string, int>
    var activeEffects: map<string, int>
    var activeCrops: int

    /** A new player at level 1 with no experience, the configured base and
        maximum plant limits, zero statistics, empty maps, and both join
        times at `now`. */
    constructor (uuid: Uuid, name: string, config: PlayerConfig, now: int)
      ensures this.uuid == uuid && this.name == name && this.config == config
      ensures level == 1 && experience == 0
      ensures totalPlants == config.baseTotalPlants && maxPlants == config.maxTotalPlants
      ensures totalHarvests == 0 && totalFertilizersUsed == 0 && totalCropsPlanted == 0
      ensures totalPlayTime == 0 && firstJoined == now && lastSeen == now
      ensures abilities == map[] && fertilizerCooldowns == map[] && activeEffects == map[]
      ensures activeCrops == 0
      ensures IsNewDefault(uuid, name, config, now)
    {
      this.uuid := uuid;
      this.name := name;
      this.config := config;
      level := 1;
      experience := 0;
      totalPlants := config.baseTotalPlants;
      maxPlants := config.maxTotalPlants;
      totalHarvests := 0;
      totalFertilizersUsed := 0;
      totalCropsPlanted := 0;
      totalPlayTime := 0;
      firstJoined := now;
      lastSeen := now;
      abilities := map[];
      fertilizerCooldowns := map[];
      activeEffects := map[];
      activeCrops := 0;
    }

    /** The state the constructor gives a new player: level 1 with no
        experience, the configured plant limits, zero counters, empty maps,
        and both join times at `now`. */
    predicate IsNewDefault(uuid: Uuid, name: string, config: PlayerConfig, now: int)
      reads this
    {
      this.uuid == uuid && this.name == name && this.config == config &&
      level == 1 && experience == 0 &&
      totalPlants == config.baseTotalPlants && maxPlants == config.maxTotalPlants &&
      totalHarvests == 0 && totalFertilizersUsed == 0 && totalCropsPlanted == 0 &&
      totalPlayTime == 0 && firstJoined == now && lastSeen == now &&
      abilities == map[] && fertilizerCooldowns == map[] && activeEffects == map[] &&
      activeCrops == 0
    }

    /** `setLevel`: clamped to [1, maxLevel]; 1 wins when maxLevel < 1. */
    method SetLevel(l: int)
      modifies this`level
      ensures level == Max(1, Min(l, config.maxLevel))
      ensures level >= 1
      ensures config.maxLevel >= 1 ==> level <= config.maxLevel
      ensures 1 <= l <= config.maxLevel ==> level == l
      ensures l > config.maxLevel >= 1 ==> level == config.maxLevel
    {
      level := Max(1, Min(l, config.maxLevel));
    }

    /** `setExperience`: negative values become zero. */
    method SetExperience(e: int)
      modifies this`experience
      ensures experience >= 0
      ensures e >= 0 ==> experience == e
      ensures e < 0 ==> experience == 0
    {
      experience := Max(0, e);
    }

    /** `addExperience`: the experience grows by `amount` and the level then
        climbs as far as `checkLevelUp` takes it. */
    method AddExperience(amount: int)
      modifies this`experience, this`level
      ensures experience == old(experience) + amount
      ensures level == LevelReached(config, old(level), experience)
      ensures level >= old(level)
      ensures !CanLevelUp()
    {
      experience := experience + amount;
      CheckLevelUp();
    }

    /** `removeExperience`: never below zero. */
    method RemoveExperience(amount: int)
      modifies this`experience
      ensures experience >= 0
      ensures experience == Max(0, old(experience) - amount)
    {
      experience := Max(0, experience - amount);
    }

    function ExperienceRequiredNow(): int
      reads this
    {
      ExperienceRequired(config, level)
    }

    /** `getExperienceToNextLevel`: the missing experience, never negative. */
    function ExperienceToNextLevel(): (r: int)
      reads this
      ensures r >= 0
      ensures r == 0 <==> experience >= ExperienceRequiredNow()
      ensures r > 0 ==> experience + r == ExperienceRequiredNow()
    {
      Max(0, ExperienceRequiredNow() - experience)
    }

    predicate CanLevelUp()
      reads this
    {
      CanLevelUpAt(config, level, experience)
    }

    /** A player can level up exactly when below the maximum with nothing
        missing to the next level, and then the loop climbs at least once. */
    lemma LevelUpNeedsExperience()
      ensures CanLevelUp() <==> level < config.maxLevel && ExperienceToNextLevel() == 0
      ensures CanLevelUp() ==> LevelReached(config, level, experience) > level
    {
      if CanLevelUp() {
        LevelReachedStops(config, level + 1, experience);
      }
    }

    /** `checkLevelUp`: climb one level at a time while `canLevelUp` holds.
        The title, message and ability-unlock notifications are not
        modelled. */
    method CheckLevelUp()
      modifies this`level
      ensures level == LevelReached(config, old(level), experience)
      ensures level >= old(level)
      ensures !CanLevelUp()
    {
      LevelReachedStops(config, level, experience);
      while CanLevelUp()
        invariant LevelReached(config, level, experience) == LevelReached(config, old(level), experience)
        decreases config.maxLevel - level
      {
        level := level + 1;
      }
    }

    /** `setTotalPlants`: clamped to [0, maxPlants]. */
    method SetTotalPlants(n: int)
      modifies this`totalPlants
      ensures totalPlants == Max(0, Min(n, maxPlants))
      ensures totalPlants >= 0
      ensures maxPlants >= 0 ==> totalPlants <= maxPlants
      ensures 0 <= n <= maxPlants ==> totalPlants == n
    {
      totalPlants := Max(0, Min(n, maxPlants));
    }

    /** `setMaxPlants`: at least 1. */
    method SetMaxPlants(n: int)
      modifies this`maxPlants
      ensures maxPlants >= 1
      ensures n >= 1 ==> maxPlants == n
      ensures n < 1 ==> maxPlants == 1
    {
      maxPlants := Max(1, n);
    }

    /** `setActiveCrops`: never negative. */
    method SetActiveCrops(n: int)
      modifies this`activeCrops
      ensures activeCrops >= 0
      ensures n >= 0 ==> activeCrops == n
      ensures n < 0 ==> activeCrops == 0
    {
      activeCrops := Max(0, n);
    }

    /** `canPlantMore`: fewer active crops than the plant limit. */
    predicate CanPlantMore()
      reads this
    {
      activeCrops < totalPlants
    }

    /** A player at or over the plant limit can plant no more; one who can has
        room for at least one more crop. */
    lemma PlantLimit()
      ensures activeCrops >= totalPlants ==> !CanPlantMore()
      ensures CanPlantMore() ==> activeCrops + 1 <= totalPlants
    {
    }

    method AddHarvest()
      modifies this`totalHarvests
      ensures totalHarvests == old(totalHarvests) + 1
    {
      totalHarvests := totalHarvests + 1;
    }

    method AddFertilizerUsed()
      modifies this`totalFertilizersUsed
      ensures totalFertilizersUsed == old(totalFertilizersUsed) + 1
    {
      totalFertilizersUsed := totalFertilizersUsed + 1;
    }

    method AddCropPlanted()
      modifies this`totalCropsPlanted
      ensures totalCropsPlanted == old(totalCropsPlanted) + 1
    {
      totalCropsPlanted := totalCropsPlanted + 1;
    }

    method AddPlayTime(time: int)
      modifies this`totalPlayTime
      ensures totalPlayTime == old(totalPlayTime) + time
    {
      totalPlayTime := totalPlayTime + time;
    }

    /** The unclamped setters the database load uses. */
    method SetStatistics(harvests: int, fertilizersUsed: int, cropsPlanted: int, playTime: int,
                         joined: int, seen: int)
      modifies this`totalHarvests, this`totalFertilizersUsed, this`totalCropsPlanted,
        this`totalPlayTime, this`firstJoined, this`lastSeen
      ensures totalHarvests == harvests && totalFertilizersUsed == fertilizersUsed
      ensures totalCropsPlanted == cropsPlanted && totalPlayTime == playTime
      ensures firstJoined == joined && lastSeen == seen
    {
      totalHarvests := harvests;
      totalFertilizersUsed := fertilizersUsed;
      totalCropsPlanted := cropsPlanted;
      totalPlayTime := playTime;
      firstJoined := joined;
      lastSeen := seen;
    }

    /** `updateLastSeen`. */
    method UpdateLastSeen(now: int)
      modifies this`lastSeen
      ensures lastSeen == now
    {
      lastSeen := now;
    }

    /** `hasAbility` holds exactly for a positive `getAbilityLevel`. */
    lemma HasAbilityMeansLevel(abilityName: string)
      ensures HasAbility(abilityName) <==> AbilityLevel(abilityName) > 0
    {
    }

    /** `getAbilityLevel`: 0 for an ability not stored. */
    function AbilityLevel(abilityName: string): (r: int)
      reads this
      ensures abilityName !in abilities ==> r == 0
      ensures abilityName in abilities ==> r == abilities[abilityName]
    {
      if abilityName in abilities then abilities[abilityName] else 0
    }

    /** `setAbilityLevel`: a level <= 0 removes the ability, otherwise it is
        stored; other abilities are untouched. */
    method SetAbilityLevel(abilityName: string, l: int)
      modifies this`abilities
      ensures l <= 0 ==> abilities == old(abilities) - {abilityName}
      ensures l > 0 ==> abilities == old(abilities)[abilityName := l]
      ensures HasAbility(abilityName) <==> l > 0
      ensures l > 0 ==> AbilityLevel(abilityName) == l
    {
      if l <= 0 {
        abilities := abilities - {abilityName};
      } else {
        abilities := abilities[abilityName := l];
      }
    }

    /** `hasAbility`: stored with a positive level. */
    predicate HasAbility(abilityName: string)
      reads this
    {
      abilityName in abilities && abilities[abilityName] > 0
    }

    /** `hasCooldown`: an active entry; an expired one is removed. */
    method HasCooldown(fertilizerType: string, now: int) returns (b: bool)
      modifies this`fertilizerCooldowns
      ensures b <==> Active(old(fertilizerCooldowns), fertilizerType, now)
      ensures fertilizerCooldowns == DropExpired(old(fertilizerCooldowns), fertilizerType, now)
      ensures b <==> fertilizerType in fertilizerCooldowns
    {
      if fertilizerType !in fertilizerCooldowns {
        return false;
      }
      if now >= fertilizerCooldowns[fertilizerType] {
        fertilizerCooldowns := fertilizerCooldowns - {fertilizerType};
        return false;
      }
      return true;
    }

    /** `setCooldown`: the entry ends `durationSeconds` seconds from now. */
    method SetCooldown(fertilizerType: string, durationSeconds: int, now: int)
      modifies this`fertilizerCooldowns
      ensures fertilizerCooldowns == old(fertilizerCooldowns)[fertilizerType := now + durationSeconds * 1000]
      ensures durationSeconds > 0 ==> Active(fertilizerCooldowns, fertilizerType, now)
    {
      fertilizerCooldowns := fertilizerCooldowns[fertilizerType := now + durationSeconds * 1000];
    }

    function CooldownRemaining(fertilizerType: string, now: int): int
      reads this
    {
      RemainingSeconds(fertilizerCooldowns, fertilizerType, now)
    }

    /** `addEffect`: the effect ends `durationSeconds` seconds from now. */
    method AddEffect(effectName: string, durationSeconds: int, now: int)
      modifies this`activeEffects
      ensures activeEffects == old(activeEffects)[effectName := now + durationSeconds * 1000]
      ensures durationSeconds > 0 ==> Active(activeEffects, effectName, now)
    {
      activeEffects := activeEffects[effectName := now + durationSeconds * 1000];
    }

    /** `hasEffect`: an active effect; an expired one is removed. */
    method HasEffect(effectName: string, now: int) returns (b: bool)
      modifies this`activeEffects
      ensures b <==> Active(old(activeEffects), effectName, now)
      ensures activeEffects == DropExpired(old(activeEffects), effectName, now)
      ensures b <==> effectName in activeEffects
    {
      if effectName !in activeEffects {
        return false;
      }
      if now >= activeEffects[effectName] {
        activeEffects := activeEffects - {effectName};
        return false;
      }
      return true;
    }

    function EffectRemaining(effectName: string, now: int): int
      reads this
    {
      RemainingSeconds(activeEffects, effectName, now)
    }
  }

  /** Dropping expired entries never changes what is active, at that time or
      later. */
  lemma DropExpiredKeepsActive(m: map<string, int>, key: string, now: int, later: int)
    requires now <= later
    ensures forall k :: Active(DropExpired(m, key, now), k, later) <==> Active(m, k, later)
  {
  }
}
