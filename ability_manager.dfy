// Per-player ability state (manager/AbilityManager.java): the loaded
// abilities, the set of toggled-on abilities of each player and each
// player's cooldown end times. `now` is a parameter.

module AbilityRegistry {
  import opened Ids
  import opened Players
  import opened Abilities

  /** The toggle set after flipping one ability. */
  function Flip(toggled: set<string>, abilityId: string): (r: set<string>)
    ensures abilityId in r <==> abilityId !in toggled
    ensures forall a :: a != abilityId ==> (a in r <==> a in toggled)
  {
    if abilityId in toggled then toggled - {abilityId} else toggled + {abilityId}
  }

  /** Flipping the same ability twice restores the set. */
  lemma FlipTwice(toggled: set<string>, abilityId: string)
    ensures Flip(Flip(toggled, abilityId), abilityId) == toggled
  {
  }

  class AbilityManager {
    var abilities: map<string, Ability>
    var cooldowns: map<Uuid, map<string, int>>
    var toggledAbilities: map<Uuid, set<string>>

    /** A manager over the abilities loaded from configuration, with no
        player state. */
    constructor (abilities: map<string, Ability>)
      ensures this.abilities == abilities
      ensures cooldowns == map[] && toggledAbilities == map[]
    {
      this.abilities := abilities;
      cooldowns := map[];
      toggledAbilities := map[];
    }

    function ToggledSet(playerId: Uuid): set<string>
      reads this
    {
      if playerId in toggledAbilities then toggledAbilities[playerId] else {}
    }

    /** `isAbilityToggled`. */
    predicate IsAbilityToggled(playerId: Uuid, abilityId: string)
      reads this
    {
      playerId in toggledAbilities && abilityId in toggledAbilities[playerId]
    }

    /** `toggleAbility`: only a known TOGGLE ability can be flipped; the
        result is its new state. Anything else returns false and changes
        nothing. */
    method ToggleAbility(playerId: Uuid, abilityId: string) returns (on: bool)
      modifies this`toggledAbilities
      ensures abilityId !in abilities || abilities[abilityId].abilityType != Toggle ==>
        !on && toggledAbilities == old(toggledAbilities)
      ensures abilityId in abilities && abilities[abilityId].abilityType == Toggle ==>
        toggledAbilities == old(toggledAbilities)[playerId := Flip(old(ToggledSet(playerId)), abilityId)] &&
        on == !old(IsAbilityToggled(playerId, abilityId)) &&
        on == IsAbilityToggled(playerId, abilityId)
    {
      if abilityId !in abilities || abilities[abilityId].abilityType != Toggle {
        return false;
      }
      var playerToggled := ToggledSet(playerId);
      if abilityId in playerToggled {
        toggledAbilities := toggledAbilities[playerId := playerToggled - {abilityId}];
        return false;
      } else {
        toggledAbilities := toggledAbilities[playerId := playerToggled + {abilityId}];
        return true;
      }
    }

    /** `isOnCooldown`: an end time is recorded and has not come yet. */
    predicate IsOnCooldown(playerId: Uuid, abilityId: string, now: int)
      reads this
    {
      playerId in cooldowns && abilityId in cooldowns[playerId] && now < cooldowns[playerId][abilityId]
    }

    /** A cooldown only runs out: once over it stays over, and it is over at
        its recorded end time. */
    lemma CooldownRunsOut(playerId: Uuid, abilityId: string, now: int, later: int)
      requires now <= later
      ensures IsOnCooldown(playerId, abilityId, later) ==> IsOnCooldown(playerId, abilityId, now)
      ensures playerId in cooldowns && abilityId in cooldowns[playerId] ==>
        !IsOnCooldown(playerId, abilityId, cooldowns[playerId][abilityId])
    {
    }

    /** An ability is toggled on exactly when it is in the player's toggle set. */
    lemma ToggledMatchesSet(playerId: Uuid, abilityId: string)
      ensures IsAbilityToggled(playerId, abilityId) <==> abilityId in ToggledSet(playerId)
      ensures playerId !in toggledAbilities ==> !IsAbilityToggled(playerId, abilityId)
    {
    }

    /** `getRemainingCooldown`: milliseconds left, zero without a record. */
    function RemainingCooldown(playerId: Uuid, abilityId: string, now: int): (r: int)
      reads this
      ensures r >= 0
      ensures r > 0 <==> IsOnCooldown(playerId, abilityId, now)
      ensures r > 0 ==> now + r == cooldowns[playerId][abilityId]
    {
      if playerId !in cooldowns || abilityId !in cooldowns[playerId] then 0
      else if cooldowns[playerId][abilityId] - now > 0 then cooldowns[playerId][abilityId] - now
      else 0
    }

    /** `setCooldown`: only this player's entry for this ability changes. */
    method SetCooldown(playerId: Uuid, abilityId: string, cooldownMillis: int, now: int)
      modifies this`cooldowns
      ensures playerId in cooldowns && abilityId in cooldowns[playerId]
      ensures cooldowns[playerId][abilityId] == now + cooldownMillis
      ensures forall a :: a != abilityId ==>
        (a in cooldowns[playerId] <==> playerId in old(cooldowns) && a in old(cooldowns)[playerId]) &&
        (a in cooldowns[playerId] ==> cooldowns[playerId][a] == old(cooldowns)[playerId][a])
      ensures forall u :: u != playerId ==> (u in cooldowns <==> u in old(cooldowns))
      ensures forall u :: u != playerId && u in cooldowns ==> cooldowns[u] == old(cooldowns)[u]
      ensures cooldownMillis > 0 ==> IsOnCooldown(playerId, abilityId, now)
    {
      var playerCooldowns := if playerId in cooldowns then cooldowns[playerId] else map[];
      cooldowns := cooldowns[playerId := playerCooldowns[abilityId := now + cooldownMillis]];
    }

    /** `clearCooldowns`: drops only that player's cooldowns. */
    method ClearCooldowns(playerId: Uuid)
      modifies this`cooldowns
      ensures cooldowns == old(cooldowns) - {playerId}
      ensures forall a, now :: !IsOnCooldown(playerId, a, now)
    {
      cooldowns := cooldowns - {playerId};
    }

    /** `clearToggles`: drops only that player's toggles. */
    method ClearToggles(playerId: Uuid)
      modifies this`toggledAbilities
      ensures toggledAbilities == old(toggledAbilities) - {playerId}
      ensures forall a :: !IsAbilityToggled(playerId, a)
    {
      toggledAbilities := toggledAbilities - {playerId};
    }

    /** `clearAllData`. */
    method ClearAllData()
      modifies this`cooldowns, this`toggledAbilities
      ensures cooldowns == map[] && toggledAbilities == map[]
    {
      cooldowns := map[];
      toggledAbilities := map[];
    }

    /** `getEffectiveLevel`: the level the player's herbalism level unlocks,
        unless the ability is unknown, a TOGGLE ability switched off, or on
        cooldown; a positive result is always a configured level. */
    function EffectiveLevel(player: HerbalismPlayer, abilityId: string, now: int): (r: int)
      reads this, player
      ensures r >= 0
      ensures abilityId !in abilities ==> r == 0
      ensures (abilityId in abilities && abilities[abilityId].abilityType == Toggle &&
        !IsAbilityToggled(player.uuid, abilityId)) ==> r == 0
      ensures IsOnCooldown(player.uuid, abilityId, now) ==> r == 0
      ensures r > 0 ==> abilityId in abilities && abilities[abilityId].GetLevel(r).Some?
      ensures r > 0 ==> r == abilities[abilityId].UnlockedLevel(player.level)
      ensures (abilityId in abilities && !(abilities[abilityId].abilityType == Toggle &&
        !IsAbilityToggled(player.uuid, abilityId)) && !IsOnCooldown(player.uuid, abilityId, now)) ==>
        r == abilities[abilityId].UnlockedLevel(player.level)
    {
      if abilityId !in abilities then 0
      else
        var ability := abilities[abilityId];
        var unlocked := ability.UnlockedLevel(player.level);
        if ability.abilityType == Toggle && !IsAbilityToggled(player.uuid, abilityId) then 0
        else if IsOnCooldown(player.uuid, abilityId, now) then 0
        else unlocked
    }

    /** `getEffectValue(player, id)`: 0.0 whenever the effective level is 0. */
    function EffectValue(player: HerbalismPlayer, abilityId: string, now: int): (r: real)
      reads this, player
      ensures EffectiveLevel(player, abilityId, now) == 0 ==> r == 0.0
      ensures r != 0.0 ==>
        abilityId in abilities && r == abilities[abilityId].EffectValue(EffectiveLevel(player, abilityId, now))
      ensures EffectiveLevel(player, abilityId, now) > 0 ==>
        r == abilities[abilityId].GetLevel(EffectiveLevel(player, abilityId, now)).value.effectValue
    {
      var level := EffectiveLevel(player, abilityId, now);
      if level == 0 || abilityId !in abilities then 0.0 else abilities[abilityId].EffectValue(level)
    }

    /** `getChance(player, id)`: 0.0 whenever the effective level is 0. */
    function Chance(player: HerbalismPlayer, abilityId: string, now: int): (r: real)
      reads this, player
      ensures EffectiveLevel(player, abilityId, now) == 0 ==> r == 0.0
      ensures r != 0.0 ==>
        abilityId in abilities && r == abilities[abilityId].Chance(EffectiveLevel(player, abilityId, now))
      ensures EffectiveLevel(player, abilityId, now) > 0 ==>
        r == abilities[abilityId].GetLevel(EffectiveLevel(player, abilityId, now)).value.chance
    {
      var level := EffectiveLevel(player, abilityId, now);
      if level == 0 || abilityId !in abilities then 0.0 else abilities[abilityId].Chance(level)
    }
  }
}
