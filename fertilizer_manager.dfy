// Active fertilizer effects (manager/FertilizerManager.java): a table from a
// crop's location to the fertilizer applied there and when, with expiry and
// a cleanup sweep. The success roll and `now` are parameters.

module Fertilizers {
  import opened JavaNum
  import opened Wrappers
  import opened Ids
  import opened Crops
  import opened Players

  /** A configured fertilizer (fertilizer/Fertilizer.java), reduced to the
      values the manager reads. */
  datatype Fertilizer = Fertilizer(
    id: string,
    name: string,
    growthMultiplier: real,
    duration: int,
    successChance: real,
    requiredLevel: int,
    experienceGain: int,
    permanent: bool)

  /** `FertilizerEffect`: a fertilizer applied at `appliedTime`. */
  datatype FertilizerEffect = FertilizerEffect(fertilizer: Fertilizer, appliedTime: int)
  {
    /** `isExpired`: strictly more than the duration has elapsed. */
    predicate IsExpired(now: int)
    {
      now - appliedTime > fertilizer.duration * 1000
    }

    /** `getRemainingTime`: milliseconds left, never negative. */
    function RemainingTime(now: int): (r: int)
      ensures r >= 0
      ensures IsExpired(now) ==> r == 0
      ensures r == 0 <==> now - appliedTime >= fertilizer.duration * 1000
      ensures r > 0 ==> now + r == appliedTime + fertilizer.duration * 1000
    {
      Max(0, fertilizer.duration * 1000 - (now - appliedTime))
    }
  }

  /** Once expired, an effect stays expired. */
  lemma ExpiredStaysExpired(e: FertilizerEffect, t1: int, t2: int)
    requires t1 <= t2 && e.IsExpired(t1)
    ensures e.IsExpired(t2) && e.RemainingTime(t2) == 0
  {
  }

  /** What the cleanup sweep removes: a non-permanent, expired effect. */
  predicate Sweeps(e: FertilizerEffect, now: int)
  {
    !e.fertilizer.permanent && e.IsExpired(now)
  }

  /** The effects left after a sweep at `now`. */
  function Unswept(effects: map<Location, FertilizerEffect>, now: int): (r: map<Location, FertilizerEffect>)
    ensures forall l :: l in r <==> l in effects && !Sweeps(effects[l], now)
    ensures forall l :: l in r ==> r[l] == effects[l]
  {
    map l | l in effects && !Sweeps(effects[l], now) :: effects[l]
  }

  /** The effects part way through the sweep: those at locations still
      `pending` stay, and of the others only those not swept. */
  function SweptExcept(effects: map<Location, FertilizerEffect>, pending: set<Location>, now: int)
    : (r: map<Location, FertilizerEffect>)
    ensures forall l :: l in r <==> l in effects && (l in pending || !Sweeps(effects[l], now))
  {
    map l | l in effects && (l in pending || !Sweeps(effects[l], now)) :: effects[l]
  }

  /** One more location visited by the sweep. */
  lemma SweptExceptStep(effects: map<Location, FertilizerEffect>, pending: set<Location>, l: Location, now: int,
                        before: map<Location, FertilizerEffect>, after: map<Location, FertilizerEffect>)
    requires l in pending && l in before
    requires before == SweptExcept(effects, pending, now)
    requires after == if Sweeps(before[l], now) then before - {l} else before
    ensures after == SweptExcept(effects, pending - {l}, now)
  {
    assert after.Keys == SweptExcept(effects, pending - {l}, now).Keys;
  }

  /** With no location pending the sweep is complete. */
  lemma SweptExceptDone(effects: map<Location, FertilizerEffect>, pending: set<Location>, now: int)
    requires pending == {}
    ensures SweptExcept(effects, pending, now) == Unswept(effects, now)
  {
  }

  /** Before the sweep nothing is removed. */
  lemma SweptExceptStart(effects: map<Location, FertilizerEffect>, now: int)
    ensures SweptExcept(effects, effects.Keys, now) == effects
  {
  }

  /** A second sweep at the same moment removes nothing more, and a later
      sweep never brings an effect back. */
  lemma SweepSettles(effects: map<Location, FertilizerEffect>, now: int, later: int)
    requires now <= later
    ensures Unswept(Unswept(effects, now), now) == Unswept(effects, now)
    ensures forall l :: l in Unswept(effects, later) ==> l in Unswept(effects, now)
  {
    forall l | l in Unswept(effects, later)
      ensures l in Unswept(effects, now)
    {
      if Sweeps(effects[l], now) {
        ExpiredStaysExpired(effects[l], now, later);
      }
    }
  }

  /** Every crop filed under a location sits at that location. */
  predicate LocatedAt(cropAt: map<Location, Crop>)
  {
    forall l :: l in cropAt ==> cropAt[l].location == l
  }

  class FertilizerManager {
    const fertilizers: map<string, Fertilizer>
    var activeFertilizers: map<Location, FertilizerEffect>

    constructor (fertilizers: map<string, Fertilizer>)
      ensures this.fertilizers == fertilizers && activeFertilizers == map[]
    {
      this.fertilizers := fertilizers;
      activeFertilizers := map[];
    }

    /** `getFertilizer`. */
    function GetFertilizer(id: string): (r: Option<Fertilizer>)
      ensures r.Some? <==> id in fertilizers
      ensures r.Some? ==> r.value == fertilizers[id]
    {
      if id in fertilizers then Some(fertilizers[id]) else None
    }

    /** `applyFertilizer`: fails, changing nothing, for a missing crop or
        fertilizer, a player below the required level, or a roll above the
        success chance. Otherwise the crop's location maps to the new effect,
        the crop's growth modifier becomes the fertilizer's multiplier (its
        harvest time is untouched) and the player gains the experience. */
    method ApplyFertilizer(crop: Crop?, fertilizer: Option<Fertilizer>, player: HerbalismPlayer,
                           roll: real, now: int) returns (ok: bool)
      modifies this`activeFertilizers, player`experience, player`level
      modifies if crop != null then {crop} else {}
      ensures !ok ==> (activeFertilizers == old(activeFertilizers) &&
        player.experience == old(player.experience) && player.level == old(player.level) &&
        (crop != null ==> crop.Record() == old(crop.Record())))
      ensures ok <==> (crop != null && fertilizer.Some? &&
        old(player.level) >= fertilizer.value.requiredLevel && roll <= fertilizer.value.successChance)
      ensures ok ==> activeFertilizers == old(activeFertilizers)[crop.location := FertilizerEffect(fertilizer.value, now)]
      ensures ok ==> crop.Record() == old(crop.Record()).(growthModifier := fertilizer.value.growthMultiplier)
      ensures ok ==> (player.experience == old(player.experience) + fertilizer.value.experienceGain &&
        player.level == LevelReached(player.config, old(player.level), player.experience))
    {
      if crop == null || fertilizer.None? {
        return false;
      }
      var f := fertilizer.value;
      if player.level < f.requiredLevel {
        return false;
      }
      if roll > f.successChance {
        return false;
      }
      activeFertilizers := activeFertilizers - {crop.location};
      activeFertilizers := activeFertilizers[crop.location := FertilizerEffect(f, now)];
      crop.SetGrowthModifier(f.growthMultiplier);
      player.AddExperience(f.experienceGain);
      return true;
    }

    /** `hasFertilizerEffect`. */
    predicate HasFertilizerEffect(crop: Crop)
      reads this
    {
      crop.location in activeFertilizers
    }

    /** Effects are keyed by location: crops at one location share one. */
    lemma EffectFollowsLocation(a: Crop, b: Crop)
      requires a.location == b.location
      ensures HasFertilizerEffect(a) <==> HasFertilizerEffect(b)
      ensures HasFertilizerEffect(a) <==> GetFertilizerEffect(a).Some?
    {
    }

    /** `getFertilizerEffect`: the effect at the crop's location, or null. */
    function GetFertilizerEffect(crop: Crop): (r: Option<FertilizerEffect>)
      reads this
      ensures r.Some? <==> HasFertilizerEffect(crop)
      ensures r.Some? ==> r.value == activeFertilizers[crop.location]
    {
      if crop.location in activeFertilizers then Some(activeFertilizers[crop.location]) else None
    }

    /** `removeFertilizerEffect`: the location loses its effect and the crop
        its growth modifier. */
    method RemoveFertilizerEffect(crop: Crop)
      modifies this`activeFertilizers, crop`growthModifier
      ensures activeFertilizers == old(activeFertilizers) - {crop.location}
      ensures !HasFertilizerEffect(crop)
      ensures crop.growthModifier == 1.0
    {
      activeFertilizers := activeFertilizers - {crop.location};
      crop.SetGrowthModifier(1.0);
    }

    /** `cleanupExpiredFertilizers`: removes exactly the swept effects, and a
        crop standing at a swept location gets its growth modifier reset;
        every other crop is unchanged. `cropAt` is the crop registry's
        location index. */
    method CleanupExpiredFertilizers(now: int, cropAt: map<Location, Crop>)
      requires LocatedAt(cropAt)
      modifies this`activeFertilizers, cropAt.Values
      ensures activeFertilizers == Unswept(old(activeFertilizers), now)
      ensures forall l :: l in cropAt ==>
        cropAt[l].Record() == old(cropAt[l].Record()).(growthModifier := cropAt[l].growthModifier)
      ensures forall l :: l in cropAt ==> (cropAt[l].growthModifier ==
        if l in old(activeFertilizers) && Sweeps(old(activeFertilizers)[l], now) then 1.0
        else old(cropAt[l].growthModifier))
    {
      var pending := activeFertilizers.Keys;
      SweptExceptStart(activeFertilizers, now);
      while pending != {}
        invariant pending <= old(activeFertilizers).Keys
        invariant activeFertilizers == SweptExcept(old(activeFertilizers), pending, now)
        invariant forall l :: l in cropAt ==> (cropAt[l].growthModifier ==
          if l in old(activeFertilizers) && l !in pending && Sweeps(old(activeFertilizers)[l], now) then 1.0
          else old(cropAt[l].growthModifier))
        modifies this`activeFertilizers, cropAt.Values`growthModifier
        decreases |pending|
      {
        var l :| l in pending;
        SweepLocation(l, now, cropAt, old(activeFertilizers), pending);
        pending := pending - {l};
      }
      SweptExceptDone(old(activeFertilizers), pending, now);
    }

    /** One turn of the `cleanupExpiredFertilizers` loop: the effect at `l`
        is dropped when it is swept, and then the crop standing there, if
        any, gets its growth modifier reset; every other crop keeps its
        modifier. */
    method SweepLocation(l: Location, now: int, cropAt: map<Location, Crop>,
                         ghost effects: map<Location, FertilizerEffect>, ghost pending: set<Location>)
      requires LocatedAt(cropAt) && l in pending && pending <= effects.Keys
      requires activeFertilizers == SweptExcept(effects, pending, now)
      modifies this`activeFertilizers, if l in cropAt then {cropAt[l]} else {}`growthModifier
      ensures activeFertilizers == SweptExcept(effects, pending - {l}, now)
      ensures forall k :: k in cropAt ==>
        cropAt[k].growthModifier == if k == l && Sweeps(effects[l], now) then 1.0 else old(cropAt[k].growthModifier)
    {
      ghost var before := activeFertilizers;
      var effect := activeFertilizers[l];
      if !effect.fertilizer.permanent && effect.IsExpired(now) {
        activeFertilizers := activeFertilizers - {l};
        if l in cropAt {
          cropAt[l].SetGrowthModifier(1.0);
        }
      }
      SweptExceptStep(effects, pending, l, now, before, activeFertilizers);
    }

    /** `clearAllEffects`. */
    method ClearAllEffects()
      modifies this`activeFertilizers
      ensures activeFertilizers == map[]
    {
      activeFertilizers := map[];
    }
  }
}
