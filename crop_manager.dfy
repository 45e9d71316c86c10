// The crop registry (manager/CropManager.java): every crop by id, the crop
// standing at each location and each owner's crop ids, with planting,
// harvesting, breaking and the decay sweep. The player's permissions, the
// block under a location, the fresh UUID of a new crop and `now` are
// parameters.

module CropRegistry {
  import opened JavaNum
  import opened Wrappers
  import opened Ids
  import opened Crops
  import opened Players
  import opened PlayerRegistry
  import opened AbilityRegistry

  /** A configured crop type, reduced to what the registry reads. */
  datatype CropType = CropType(
    id: string,
    name: string,
    category: string,
    duration: int,
    sustainable: bool,
    requiredLevel: int,
    permission: string)

  /** The growth time of a planted crop: the base duration, scaled (and cast
      to long) when the green-thumb modifier is positive. */
  function PlantedDuration(base: int, greenThumb: real): (d: int)
    ensures greenThumb <= 0.0 ==> d == base
    ensures greenThumb > 0.0 ==> d as real <= base as real * greenThumb < d as real + 1.0 || base < 0
  {
    if greenThumb > 0.0 then TruncToInt(base as real * greenThumb) else base
  }

  /** A green-thumb modifier in (0, 1] never lengthens growth and never
      makes it negative. */
  lemma GreenThumbShortens(base: int, greenThumb: real)
    requires base >= 0 && 0.0 < greenThumb <= 1.0
    ensures 0 <= PlantedDuration(base, greenThumb) <= base
  {
    assert 0.0 <= base as real * greenThumb <= base as real;
  }

  /** The crops left once the ids in `gone` are dropped. */
  function CropsWithout(m: map<Uuid, Crop>, gone: set<Uuid>): (r: map<Uuid, Crop>)
    ensures forall id :: id in r <==> id in m && id !in gone
    ensures forall id :: id in r ==> r[id] == m[id]
  {
    map id | id in m && id !in gone :: m[id]
  }

  /** The location index left once the crops with ids in `gone` are dropped. */
  function LocationsWithout(m: map<Location, Crop>, gone: set<Uuid>): (r: map<Location, Crop>)
    ensures forall l :: l in r <==> l in m && m[l].id !in gone
    ensures forall l :: l in r ==> r[l] == m[l]
  {
    map l | l in m && m[l].id !in gone :: m[l]
  }

  /** The owner index left once the ids in `gone` are dropped. */
  function OwnedWithout(m: map<Uuid, set<Uuid>>, gone: set<Uuid>): (r: map<Uuid, set<Uuid>>)
    ensures r.Keys == m.Keys
    ensures forall u :: u in r ==> r[u] == m[u] - gone
  {
    map u | u in m :: m[u] - gone
  }

  /** The ids in `ids` of crops owned by `owner`. */
  function OwnedAmong(m: map<Uuid, Crop>, ids: set<Uuid>, owner: Uuid): (r: set<Uuid>)
    ensures forall id :: id in r <==> id in ids && id in m && m[id].ownerId == owner
  {
    set id | id in ids && id in m && m[id].ownerId == owner
  }

  /** Distinct ids of crops filed under their own id give distinct crops, so
      the crops found for a set of ids are as many as the ids. */
  lemma {:induction false} ImageCard(ids: set<Uuid>, m: map<Uuid, Crop>)
    requires forall id :: id in ids ==> id in m && m[id].id == id
    ensures |set id | id in ids :: m[id]| == |ids|
    decreases |ids|
  {
    var image := set id | id in ids :: m[id];
    if ids == {} {
      assert image == {};
    } else {
      var x :| x in ids;
      ImageCard(ids - {x}, m);
      var rest := set id | id in ids - {x} :: m[id];
      assert image == rest + {m[x]};
      assert m[x] !in rest;
    }
  }

  /** The registry invariant over the three indices and the ids of the
      crops not yet harvested (`growing`): every crop is filed under its own
      id; the location index holds growing crops at their own locations; an
      owner's ids name crops of that owner; and every growing crop is in the
      location and owner indices. */
  predicate Consistent(c: map<Uuid, Crop>, l: map<Location, Crop>, o: map<Uuid, set<Uuid>>, g: set<Uuid>)
  {
    (forall id :: id in c ==> c[id].id == id) &&
    (forall x :: x in l ==> l[x].location == x && l[x].id in g && l[x].id in c && c[l[x].id] == l[x]) &&
    (forall u, id :: u in o && id in o[u] ==> id in c && c[id].ownerId == u) &&
    (forall id :: id in g ==> (id in c && c[id].location in l && l[c[id].location] == c[id] &&
      c[id].ownerId in o && id in o[c[id].ownerId]))
  }

  /** Planting a crop with a fresh id at a free location keeps the
      invariant. */
  lemma PlantKeeps(c: map<Uuid, Crop>, l: map<Location, Crop>, o: map<Uuid, set<Uuid>>, g: set<Uuid>, n: Crop)
    requires Consistent(c, l, o, g)
    requires n.id !in c && n.location !in l
    ensures Consistent(c[n.id := n], l[n.location := n],
      o[n.ownerId := (if n.ownerId in o then o[n.ownerId] else {}) + {n.id}], g + {n.id})
  {
  }

  /** Harvesting a growing crop of a type that is not replanted keeps the
      invariant, with the crop no longer growing. */
  lemma RetireKeeps(c: map<Uuid, Crop>, l: map<Location, Crop>, o: map<Uuid, set<Uuid>>, g: set<Uuid>, crop: Crop)
    requires Consistent(c, l, o, g)
    requires crop.id in g && c[crop.id] == crop
    ensures crop.ownerId in o
    ensures Consistent(c, l - {crop.location}, o[crop.ownerId := o[crop.ownerId] - {crop.id}], g - {crop.id})
  {
  }

  /** Harvesting a growing crop and replanting a fresh one at its place for
      the same owner keeps the invariant. */
  lemma ReplantKeeps(c: map<Uuid, Crop>, l: map<Location, Crop>, o: map<Uuid, set<Uuid>>, g: set<Uuid>,
                     crop: Crop, n: Crop)
    requires Consistent(c, l, o, g)
    requires crop.id in g && c[crop.id] == crop
    requires n.id !in c && n.location == crop.location && n.ownerId == crop.ownerId
    ensures crop.ownerId in o
    ensures Consistent(c[n.id := n], l[crop.location := n],
      o[crop.ownerId := o[crop.ownerId] - {crop.id} + {n.id}], g - {crop.id} + {n.id})
  {
  }

  /** Removing a growing crop keeps the invariant; under it, dropping the
      crop's location and the crop's id from its owner's set is the same as
      dropping its id from every index. */
  lemma RemoveKeeps(c: map<Uuid, Crop>, l: map<Location, Crop>, o: map<Uuid, set<Uuid>>, g: set<Uuid>, crop: Crop)
    requires Consistent(c, l, o, g)
    requires crop.id in g && c[crop.id] == crop
    ensures l - {crop.location} == LocationsWithout(l, {crop.id})
    ensures crop.ownerId in o && o[crop.ownerId := o[crop.ownerId] - {crop.id}] == OwnedWithout(o, {crop.id})
    ensures Consistent(c - {crop.id}, l - {crop.location}, OwnedWithout(o, {crop.id}), g - {crop.id})
  {
    var o' := o[crop.ownerId := o[crop.ownerId] - {crop.id}];
    forall u | u in o
      ensures o'[u] == o[u] - {crop.id}
    {
      if u != crop.ownerId {
        assert crop.id !in o[u];
      }
    }
  }

  /** Dropping ids in two rounds is dropping them at once. */
  lemma WithoutCompose(c: map<Uuid, Crop>, l: map<Location, Crop>, o: map<Uuid, set<Uuid>>, s: set<Uuid>, t: set<Uuid>)
    ensures CropsWithout(CropsWithout(c, s), t) == CropsWithout(c, s + t)
    ensures LocationsWithout(LocationsWithout(l, s), t) == LocationsWithout(l, s + t)
    ensures OwnedWithout(OwnedWithout(o, s), t) == OwnedWithout(o, s + t)
  {
    assert forall u :: u in o ==> o[u] - s - t == o[u] - (s + t);
  }

  /** One more id visited by the sweep: the indices without the decayed
      ids among those visited, then without this one if it decayed, are the
      indices without the decayed ids among all visited now. */
  lemma SweepIndexStep(c: map<Uuid, Crop>, l: map<Location, Crop>, o: map<Uuid, set<Uuid>>,
                       gone: set<Uuid>, done: set<Uuid>, id: Uuid, removed: bool)
    requires removed <==> id in gone
    ensures CropsWithout(CropsWithout(c, gone * done), if removed then {id} else {}) ==
      CropsWithout(c, gone * (done + {id}))
    ensures LocationsWithout(LocationsWithout(l, gone * done), if removed then {id} else {}) ==
      LocationsWithout(l, gone * (done + {id}))
    ensures OwnedWithout(OwnedWithout(o, gone * done), if removed then {id} else {}) ==
      OwnedWithout(o, gone * (done + {id}))
  {
    var step := if removed then {id} else {};
    assert gone * (done + {id}) == gone * done + step;
    WithoutCompose(c, l, o, gone * done, step);
  }

  /** Dropping no ids changes nothing. */
  lemma WithoutNothing(c: map<Uuid, Crop>, l: map<Location, Crop>, o: map<Uuid, set<Uuid>>)
    ensures CropsWithout(c, {}) == c && LocationsWithout(l, {}) == l && OwnedWithout(o, {}) == o
  {
    assert forall u :: u in o ==> o[u] - {} == o[u];
  }

  /** The active counts after one crop of `owner` is removed: that owner's
      count drops by one, never below zero. */
  function Decrement(act: map<Uuid, int>, owner: Uuid): (r: map<Uuid, int>)
    ensures r.Keys == act.Keys
    ensures owner in act ==> r[owner] == Max(0, act[owner] - 1)
    ensures forall u :: u in act && u != owner ==> r[u] == act[u]
  {
    if owner in act then act[owner := Max(0, act[owner] - 1)] else act
  }

  /** The active counts once the crops with ids in `removed` are gone: one
      fewer per removed crop of each owner, never below zero (an owner with
      no removed crop keeps even a negative count as loaded). */
  function CountsAfter(act: map<Uuid, int>, c: map<Uuid, Crop>, removed: set<Uuid>): (r: map<Uuid, int>)
    ensures r.Keys == act.Keys
    ensures forall u :: u in r ==> r[u] == (if OwnedAmong(c, removed, u) == {} then act[u]
      else Max(0, act[u] - |OwnedAmong(c, removed, u)|))
  {
    map u | u in act :: if OwnedAmong(c, removed, u) == {} then act[u]
      else Max(0, act[u] - |OwnedAmong(c, removed, u)|)
  }

  /** Removing crops one at a time, each lowering its owner's count with
      the clamp, gives the counts `CountsAfter` states for all of them. */
  lemma CountsStep(act: map<Uuid, int>, c: map<Uuid, Crop>, removed: set<Uuid>, x: Uuid)
    requires x in c && x !in removed
    ensures CountsAfter(act, c, removed + {x}) == Decrement(CountsAfter(act, c, removed), c[x].ownerId)
  {
    forall u | u in act
      ensures CountsAfter(act, c, removed + {x})[u] == Decrement(CountsAfter(act, c, removed), c[x].ownerId)[u]
    {
      CountsStepAt(act, c, removed, x, u);
    }
  }

  /** `CountsStep` for one player. */
  lemma CountsStepAt(act: map<Uuid, int>, c: map<Uuid, Crop>, removed: set<Uuid>, x: Uuid, u: Uuid)
    requires x in c && x !in removed && u in act
    ensures CountsAfter(act, c, removed + {x})[u] == Decrement(CountsAfter(act, c, removed), c[x].ownerId)[u]
  {
    var a := OwnedAmong(c, removed, u);
    if c[x].ownerId == u {
      assert OwnedAmong(c, removed + {x}, u) == a + {x};
      assert |a + {x}| == |a| + 1;
    } else {
      assert OwnedAmong(c, removed + {x}, u) == a;
    }
  }

  /** Removing nothing leaves every count. */
  lemma CountsNothing(act: map<Uuid, int>, c: map<Uuid, Crop>)
    ensures CountsAfter(act, c, {}) == act
  {
    forall u | u in act
      ensures CountsAfter(act, c, {})[u] == act[u]
    {
      assert OwnedAmong(c, {}, u) == {};
    }
  }

  /** The counts after one more crop visited by the sweep. */
  lemma CountsSweepStep(act: map<Uuid, int>, c: map<Uuid, Crop>, gone: set<Uuid>, done: set<Uuid>,
                        id: Uuid, removed: bool)
    requires id in c && id !in done
    requires removed <==> id in gone
    ensures CountsAfter(act, c, gone * (done + {id})) ==
      if removed then Decrement(CountsAfter(act, c, gone * done), c[id].ownerId)
      else CountsAfter(act, c, gone * done)
  {
    if removed {
      assert gone * (done + {id}) == gone * done + {id};
      CountsStep(act, c, gone * done, id);
    } else {
      assert gone * (done + {id}) == gone * done;
    }
  }

  /** The decayed flags after the sweep has visited the ids in `done`: a
      visited crop is decayed if it already was, if its decay time had come
      (`gone`), or if it was still growing on a missing or air block; an
      unvisited crop keeps its flag. */
  function SweptFlags(dec: map<Uuid, bool>, harv: map<Uuid, bool>, c: map<Uuid, Crop>, gone: set<Uuid>,
                      airBlocks: set<Location>, done: set<Uuid>): (r: map<Uuid, bool>)
    requires dec.Keys == harv.Keys == c.Keys
    ensures r.Keys == dec.Keys
    ensures forall id :: id in r && id !in done ==> r[id] == dec[id]
    ensures forall id :: id in r && id in done ==>
      r[id] == (dec[id] || id in gone || (!harv[id] && c[id].location in airBlocks))
  {
    map id | id in dec :: if id in done then dec[id] || id in gone || (!harv[id] && c[id].location in airBlocks)
      else dec[id]
  }

  /** Moving one id from the pending ids to the visited ones keeps them a
      partition of all ids. */
  lemma Visit(pending: set<Uuid>, done: set<Uuid>, all: set<Uuid>, id: Uuid)
    requires pending !! done && pending + done == all && id in pending
    ensures (pending - {id}) !! (done + {id}) && (pending - {id}) + (done + {id}) == all
    ensures |pending - {id}| < |pending|
  {
  }

  class CropManager {
    const cropTypes: map<string, CropType>
    const players: PlayerManager
    const abilities: AbilityManager
    var crops: map<Uuid, Crop>
    var locationToCrop: map<Location, Crop>
    var playerCrops: map<Uuid, set<Uuid>>

    /** The ids of the crops not yet harvested. */
    function Growing(): (g: set<Uuid>)
      reads this`crops, crops.Values`harvested
      ensures forall id :: id in g <==> id in crops && !crops[id].harvested
    {
      set id | id in crops && !crops[id].harvested
    }

    predicate Valid()
      reads this`crops, this`locationToCrop, this`playerCrops, crops.Values`harvested
    {
      Consistent(crops, locationToCrop, playerCrops, Growing())
    }

    /** A registry with no crops over the configured crop types. */
    constructor (cropTypes: map<string, CropType>, players: PlayerManager, abilities: AbilityManager)
      ensures this.cropTypes == cropTypes && this.players == players && this.abilities == abilities
      ensures crops == map[] && locationToCrop == map[] && playerCrops == map[]
      ensures Valid()
    {
      this.cropTypes := cropTypes;
      this.players := players;
      this.abilities := abilities;
      crops := map[];
      locationToCrop := map[];
      playerCrops := map[];
    }

    /** The loaded player object for `u`, as a frame. */
    function PlayerObject(u: Uuid): set<HerbalismPlayer>
      reads players
    {
      if u in players.players then {players.players[u]} else {}
    }

    /** The crop ids filed under an owner (none without an entry). */
    function OwnedIds(u: Uuid): set<Uuid>
      reads this
    {
      if u in playerCrops then playerCrops[u] else {}
    }

    /** Every loaded player's active crop count. */
    function ActiveCounts(): (r: map<Uuid, int>)
      reads players`players, players.players.Values`activeCrops
      ensures r.Keys == players.players.Keys
      ensures forall u :: u in r ==> r[u] == players.players[u].activeCrops
    {
      map u | u in players.players :: players.players[u].activeCrops
    }

    /** The decayed flag of every crop in `c`. */
    static function DecayedFlags(c: map<Uuid, Crop>): (r: map<Uuid, bool>)
      reads c.Values`decayed
      ensures r.Keys == c.Keys
      ensures forall id :: id in r ==> r[id] == c[id].decayed
    {
      map id | id in c :: c[id].decayed
    }

    /** The harvest time of every crop in `c`. */
    static function HarvestTimes(c: map<Uuid, Crop>): (r: map<Uuid, int>)
      reads c.Values`harvestTime
      ensures r.Keys == c.Keys
      ensures forall id :: id in r ==> r[id] == c[id].harvestTime
    {
      map id | id in c :: c[id].harvestTime
    }

    /** The harvested flag of every crop in `c`. */
    static function HarvestedFlags(c: map<Uuid, Crop>): (r: map<Uuid, bool>)
      reads c.Values`harvested
      ensures r.Keys == c.Keys
      ensures forall id :: id in r ==> r[id] == c[id].harvested
    {
      map id | id in c :: c[id].harvested
    }

    /** Midway through the sweep: each crop of `c0` carries the decayed flag
        `SweptFlags` gives it for the ids in `done`, and its harvested flag and
        harvest time are still the ones recorded before the sweep. */
    static predicate Flagged(c0: map<Uuid, Crop>, dec0: map<Uuid, bool>, harv0: map<Uuid, bool>,
                             ht0: map<Uuid, int>, gone: set<Uuid>, airBlocks: set<Location>,
                             done: set<Uuid>)
      reads c0.Values`decayed, c0.Values`harvested, c0.Values`harvestTime
    {
      dec0.Keys == harv0.Keys == ht0.Keys == c0.Keys &&
      forall k :: k in c0 ==>
        c0[k].harvested == harv0[k] && c0[k].harvestTime == ht0[k] &&
        c0[k].decayed == if k in done then dec0[k] || k in gone || (!harv0[k] && c0[k].location in airBlocks) else dec0[k]
    }

    /** A crop not yet visited still decays exactly when it was due to. */
    static lemma FlaggedPending(c0: map<Uuid, Crop>, dec0: map<Uuid, bool>, harv0: map<Uuid, bool>,
                                ht0: map<Uuid, int>, gone: set<Uuid>, airBlocks: set<Location>,
                                done: set<Uuid>, id: Uuid, now: int, decayMultiplier: real)
      requires Flagged(c0, dec0, harv0, ht0, gone, airBlocks, done)
      requires forall k :: k in gone <==>
        (k in c0 && !harv0[k] && !dec0[k] && now >= ht0[k] + TruncToInt(c0[k].originalDuration as real * decayMultiplier))
      requires id in c0 && id !in done
      ensures id in gone <==> c0[id].IsDecayTime(now, decayMultiplier)
    {
      var crop := c0[id];
      assert crop.harvested == harv0[id] && crop.decayed == dec0[id];
    }

    /** Visiting `id` extends `Flagged` by that crop, when the visit set
        only its decayed flag, as `SweepStep` promises. */
    static lemma FlaggedSnapshot(c0: map<Uuid, Crop>, dec0: map<Uuid, bool>, harv0: map<Uuid, bool>,
                                 ht0: map<Uuid, int>, gone: set<Uuid>, airBlocks: set<Location>,
                                 done: set<Uuid>, prev: map<Uuid, bool>)
      requires Flagged(c0, dec0, harv0, ht0, gone, airBlocks, done)
      requires prev == DecayedFlags(c0)
      ensures forall k :: k in c0 ==> (k in harv0 && k in ht0 && k in prev &&
        c0[k].harvested == harv0[k] && c0[k].harvestTime == ht0[k] && c0[k].decayed == prev[k])
      ensures forall k :: k in c0 ==> (prev[k] ==
        if k in done then dec0[k] || k in gone || (!harv0[k] && c0[k].location in airBlocks) else dec0[k])
    {
    }

    static lemma FlaggedStep(c0: map<Uuid, Crop>, dec0: map<Uuid, bool>, harv0: map<Uuid, bool>,
                             ht0: map<Uuid, int>, gone: set<Uuid>, airBlocks: set<Location>,
                             done: set<Uuid>, id: Uuid, prev: map<Uuid, bool>)
      requires dec0.Keys == harv0.Keys == ht0.Keys == prev.Keys == c0.Keys
      requires id in c0 && id !in done
      requires forall k :: k in c0 ==> (prev[k] ==
        if k in done then dec0[k] || k in gone || (!harv0[k] && c0[k].location in airBlocks) else dec0[k])
      requires forall k :: k in c0 ==> (c0[k].harvested == harv0[k] && c0[k].harvestTime == ht0[k] &&
        (k != id ==> c0[k].decayed == prev[k]))
      requires c0[id].decayed == (prev[id] || id in gone || (!harv0[id] && c0[id].location in airBlocks))
      ensures Flagged(c0, dec0, harv0, ht0, gone, airBlocks, done + {id})
    {
    }

    /** At the end of the sweep the flags read back as one map. */
    static lemma FlaggedAll(c0: map<Uuid, Crop>, dec0: map<Uuid, bool>, harv0: map<Uuid, bool>,
                            ht0: map<Uuid, int>, gone: set<Uuid>, airBlocks: set<Location>)
      requires Flagged(c0, dec0, harv0, ht0, gone, airBlocks, c0.Keys)
      ensures DecayedFlags(c0) == SweptFlags(dec0, harv0, c0, gone, airBlocks, c0.Keys)
    {
    }

    /** `canPlantCrop`: the type is known, the player is loaded, has the
        level and the permission the type requires, and is below the plant
        limit. */
    predicate CanPlantCrop(playerId: Uuid, permissions: set<string>, cropTypeId: string)
      reads players, players.players.Values
    {
      cropTypeId in cropTypes && playerId in players.players &&
      players.players[playerId].level >= cropTypes[cropTypeId].requiredLevel &&
      cropTypes[cropTypeId].permission in permissions &&
      players.players[playerId].CanPlantMore()
    }

    /** More permissions never forbid planting, and planting needs a loaded
        player with room below the limit. */
    lemma CanPlantCropMonotone(playerId: Uuid, permissions: set<string>, more: set<string>, cropTypeId: string)
      requires permissions <= more
      ensures CanPlantCrop(playerId, permissions, cropTypeId) ==> CanPlantCrop(playerId, more, cropTypeId)
      ensures CanPlantCrop(playerId, permissions, cropTypeId) ==>
        players.IsPlayerLoaded(playerId) && players.players[playerId].activeCrops < players.players[playerId].totalPlants
      ensures cropTypeId in cropTypes && cropTypes[cropTypeId].permission !in permissions ==>
        !CanPlantCrop(playerId, permissions, cropTypeId)
    {
    }

    /** `plantCrop`: fails, changing nothing, unless planting is allowed, the
        location is free and the block is farmland. Otherwise a fresh crop
        growing for the (green-thumb scaled) duration is filed in all three
        indices and the planter's planted and active counters go up. */
    method PlantCrop(playerId: Uuid, playerName: string, permissions: set<string>, cropTypeId: string,
                     location: Location, blockIsFarmland: bool, newId: Uuid, now: int) returns (ok: bool)
      requires Valid()
      requires newId !in crops
      modifies this`crops, this`locationToCrop, this`playerCrops
      modifies PlayerObject(playerId)`totalCropsPlanted, PlayerObject(playerId)`activeCrops
      ensures Valid()
      ensures ok <==> (old(CanPlantCrop(playerId, permissions, cropTypeId)) &&
        location !in old(locationToCrop) && blockIsFarmland)
      ensures !ok ==> (crops == old(crops) && locationToCrop == old(locationToCrop) &&
        playerCrops == old(playerCrops) && unchanged(PlayerObject(playerId)))
      ensures ok ==> (newId in crops && fresh(crops[newId]) &&
        crops == old(crops)[newId := crops[newId]] &&
        locationToCrop == old(locationToCrop)[location := crops[newId]] &&
        playerCrops == old(playerCrops)[playerId := old(OwnedIds(playerId)) + {newId}])
      ensures ok ==> (
        var d := PlantedDuration(cropTypes[cropTypeId].duration,
          old(abilities.EffectValue(players.players[playerId], "green_thumb", now)));
        crops[newId].Record() ==
          CropRecord(newId, cropTypeId, playerId, playerName, location, now, d * 1000, now + d * 1000,
            false, false, [], 1.0))
      ensures ok ==> (
        players.players[playerId].totalCropsPlanted == old(players.players[playerId].totalCropsPlanted) + 1 &&
        players.players[playerId].activeCrops == Max(0, old(players.players[playerId].activeCrops) + 1))
    {
      if !CanPlantCrop(playerId, permissions, cropTypeId) {
        return false;
      }
      if location in locationToCrop {
        return false;
      }
      if !blockIsFarmland {
        return false;
      }
      ok := true;
      var p := players.players[playerId];
      var duration := PlantedDuration(cropTypes[cropTypeId].duration, abilities.EffectValue(p, "green_thumb", now));
      PlantAt(p, playerId, playerName, cropTypeId, location, newId, duration, now);
    }

    /** The success path of `plantCrop`: a crop growing for `duration`
        seconds is filed, then the planter's counters go up. */
    method PlantAt(p: HerbalismPlayer, playerId: Uuid, playerName: string, cropTypeId: string, location: Location,
                   newId: Uuid, duration: int, now: int)
      requires Valid()
      requires newId !in crops && location !in locationToCrop
      modifies this`crops, this`locationToCrop, this`playerCrops, p`totalCropsPlanted, p`activeCrops
      ensures Valid()
      ensures newId in crops && fresh(crops[newId])
      ensures crops == old(crops)[newId := crops[newId]]
      ensures locationToCrop == old(locationToCrop)[location := crops[newId]]
      ensures playerCrops == old(playerCrops)[playerId := old(OwnedIds(playerId)) + {newId}]
      ensures crops[newId].Record() ==
        CropRecord(newId, cropTypeId, playerId, playerName, location, now, duration * 1000, now + duration * 1000,
          false, false, [], 1.0)
      ensures p.totalCropsPlanted == old(p.totalCropsPlanted) + 1
      ensures p.activeCrops == Max(0, old(p.activeCrops) + 1)
    {
      var crop := new Crop(newId, cropTypeId, playerId, playerName, location, duration, now);
      Register(crop);
      CreditPlanting(p);
    }

    /** The planter's two counters of `plantCrop`; the registry is not
        touched. */
    static method CreditPlanting(p: HerbalismPlayer)
      modifies p`totalCropsPlanted, p`activeCrops
      ensures p.totalCropsPlanted == old(p.totalCropsPlanted) + 1
      ensures p.activeCrops == Max(0, old(p.activeCrops) + 1)
    {
      p.AddCropPlanted();
      p.SetActiveCrops(p.activeCrops + 1);
    }

    /** The three `put`s of `plantCrop`: a new crop, with an id not yet used,
        at a free location, is filed in every index. */
    method Register(crop: Crop)
      requires Valid()
      requires crop.id !in crops && crop.location !in locationToCrop && !crop.harvested
      modifies this`crops, this`locationToCrop, this`playerCrops
      ensures Valid()
      ensures crops == old(crops)[crop.id := crop]
      ensures locationToCrop == old(locationToCrop)[crop.location := crop]
      ensures playerCrops == old(playerCrops)[crop.ownerId := old(OwnedIds(crop.ownerId)) + {crop.id}]
    {
      ghost var g := Growing();
      PlantKeeps(crops, locationToCrop, playerCrops, g, crop);
      crops := crops[crop.id := crop];
      locationToCrop := locationToCrop[crop.location := crop];
      playerCrops := playerCrops[crop.ownerId := OwnedIds(crop.ownerId) + {crop.id}];
      assert Growing() == g + {crop.id};
    }

    /** `harvestCrop`: fails, changing nothing, without a crop at the
        location, for a caller who does not own it or for a crop not ready;
        otherwise the crop is harvested as by `PerformHarvest`. */
    method HarvestCrop(playerId: Uuid, location: Location, newId: Uuid, now: int) returns (ok: bool)
      requires Valid()
      requires newId !in crops
      modifies this`crops, this`locationToCrop, this`playerCrops, locationToCrop.Values`harvested
      modifies PlayerObject(playerId)`activeCrops, PlayerObject(playerId)`totalHarvests
      modifies PlayerObject(playerId)`experience, PlayerObject(playerId)`level
      ensures Valid()
      ensures ok <==> (location in old(locationToCrop) &&
        old(locationToCrop[location].IsOwner(Some(playerId))) &&
        old(locationToCrop[location].IsReadyForHarvest(now)) &&
        old(locationToCrop[location]).cropType in cropTypes)
      ensures !ok ==> (crops == old(crops) && locationToCrop == old(locationToCrop) &&
        playerCrops == old(playerCrops) && unchanged(old(locationToCrop.Values)) &&
        unchanged(PlayerObject(playerId)))
      ensures ok ==> (
        var crop := old(locationToCrop)[location];
        crop.Record() == old(crop.Record()).(harvested := true))
      ensures ok && cropTypes[old(locationToCrop)[location].cropType].sustainable ==> (
        var crop := old(locationToCrop)[location];
        var t := cropTypes[crop.cropType];
        newId in crops && fresh(crops[newId]) &&
        crops == old(crops)[newId := crops[newId]] &&
        locationToCrop == old(locationToCrop)[location := crops[newId]] &&
        playerCrops == old(playerCrops)[playerId := old(playerCrops)[playerId] - {crop.id} + {newId}] &&
        crops[newId].Record() == CropRecord(newId, crop.cropType, playerId, crop.ownerName, location,
          now, t.duration * 1000, now + t.duration * 1000, false, false, [], 1.0) &&
        (playerId in players.players ==>
          players.players[playerId].activeCrops == old(players.players[playerId].activeCrops)))
      ensures ok && !cropTypes[old(locationToCrop)[location].cropType].sustainable ==> (
        var crop := old(locationToCrop)[location];
        crops == old(crops) &&
        locationToCrop == old(locationToCrop) - {location} &&
        playerCrops == old(playerCrops)[playerId := old(playerCrops)[playerId] - {crop.id}] &&
        (playerId in players.players ==>
          players.players[playerId].activeCrops == Max(0, old(players.players[playerId].activeCrops) - 1)))
      ensures ok && playerId in players.players ==> (
        var t := cropTypes[old(locationToCrop)[location].cropType];
        var p := players.players[playerId];
        p.totalHarvests == old(p.totalHarvests) + 1 &&
        p.experience == old(p.experience) + JavaDiv(t.duration, 10) &&
        p.level == LevelReached(p.config, old(p.level), p.experience))
    {
      if location !in locationToCrop {
        return false;
      }
      var crop := locationToCrop[location];
      if !crop.IsOwner(Some(playerId)) {
        return false;
      }
      if !crop.IsReadyForHarvest(now) {
        return false;
      }
      ok := PerformHarvest(crop, playerId, newId, now);
    }

    /** `performHarvest` (the drops left out): fails, changing nothing, for a
        crop of an unknown type. Otherwise the crop is flagged harvested but
        stays in `crops`. A sustainable type replants a fresh crop of the
        same type and owner at the same place with the base duration (no
        green-thumb modifier), swapping ids in the owner's set; any other
        type frees the location, leaves the owner's set and lowers the
        owner's active count. The harvester (here the owner) gains a harvest
        and a tenth of the base duration as experience. */
    method PerformHarvest(crop: Crop, playerId: Uuid, newId: Uuid, now: int) returns (ok: bool)
      requires Valid()
      requires crop.location in locationToCrop && locationToCrop[crop.location] == crop
      requires crop.ownerId == playerId && newId !in crops
      modifies this`crops, this`locationToCrop, this`playerCrops, crop`harvested
      modifies PlayerObject(playerId)`activeCrops, PlayerObject(playerId)`totalHarvests
      modifies PlayerObject(playerId)`experience, PlayerObject(playerId)`level
      ensures Valid()
      ensures ok <==> crop.cropType in cropTypes
      ensures !ok ==> (crops == old(crops) && locationToCrop == old(locationToCrop) &&
        playerCrops == old(playerCrops) && unchanged(crop) && unchanged(PlayerObject(playerId)))
      ensures ok ==> crop.Record() == old(crop.Record()).(harvested := true)
      ensures ok && cropTypes[crop.cropType].sustainable ==> (
        var t := cropTypes[crop.cropType];
        newId in crops && fresh(crops[newId]) &&
        crops == old(crops)[newId := crops[newId]] &&
        locationToCrop == old(locationToCrop)[crop.location := crops[newId]] &&
        playerCrops == old(playerCrops)[playerId := old(playerCrops)[playerId] - {crop.id} + {newId}] &&
        crops[newId].Record() == CropRecord(newId, crop.cropType, playerId, crop.ownerName, crop.location,
          now, t.duration * 1000, now + t.duration * 1000, false, false, [], 1.0) &&
        (playerId in players.players ==>
          players.players[playerId].activeCrops == old(players.players[playerId].activeCrops)))
      ensures ok && !cropTypes[crop.cropType].sustainable ==> (
        crops == old(crops) &&
        locationToCrop == old(locationToCrop) - {crop.location} &&
        playerCrops == old(playerCrops)[playerId := old(playerCrops)[playerId] - {crop.id}] &&
        (playerId in players.players ==>
          players.players[playerId].activeCrops == Max(0, old(players.players[playerId].activeCrops) - 1)))
      ensures ok && playerId in players.players ==> (
        var t := cropTypes[crop.cropType];
        var p := players.players[playerId];
        p.totalHarvests == old(p.totalHarvests) + 1 &&
        p.experience == old(p.experience) + JavaDiv(t.duration, 10) &&
        p.level == LevelReached(p.config, old(p.level), p.experience))
    {
      if crop.cropType !in cropTypes {
        return false;
      }
      var cropType := cropTypes[crop.cropType];
      HarvestIndices(crop, cropType, newId, now);
      var p := players.GetPlayer(playerId);
      if p != null {
        CreditHarvest(p, cropType);
      }
      return true;
    }

    /** The player-side part of `performHarvest` for the owner, who is also
        the harvester: one crop fewer unless it was replanted, one more
        harvest and a tenth of the base duration as experience. */
    static method CreditHarvest(p: HerbalismPlayer, cropType: CropType)
      modifies p`activeCrops, p`totalHarvests, p`experience, p`level
      ensures p.activeCrops == if cropType.sustainable then old(p.activeCrops) else Max(0, old(p.activeCrops) - 1)
      ensures p.totalHarvests == old(p.totalHarvests) + 1
      ensures p.experience == old(p.experience) + JavaDiv(cropType.duration, 10)
      ensures p.level == LevelReached(p.config, old(p.level), p.experience)
    {
      if !cropType.sustainable {
        p.SetActiveCrops(p.activeCrops - 1);
      }
      p.AddHarvest();
      p.AddExperience(JavaDiv(cropType.duration, 10));
    }

    /** The crop-side part of `performHarvest`: the crop is flagged
        harvested and leaves the location index, then is replanted or
        retired. */
    method HarvestIndices(crop: Crop, cropType: CropType, newId: Uuid, now: int)
      requires Valid()
      requires crop.location in locationToCrop && locationToCrop[crop.location] == crop && newId !in crops
      modifies this`crops, this`locationToCrop, this`playerCrops, crop`harvested
      ensures Valid()
      ensures crop.harvested
      ensures cropType.sustainable ==> (newId in crops && fresh(crops[newId]) &&
        crops == old(crops)[newId := crops[newId]] &&
        locationToCrop == old(locationToCrop)[crop.location := crops[newId]] &&
        playerCrops == old(playerCrops)[crop.ownerId := old(playerCrops)[crop.ownerId] - {crop.id} + {newId}] &&
        crops[newId].Record() == CropRecord(newId, crop.cropType, crop.ownerId, crop.ownerName, crop.location,
          now, cropType.duration * 1000, now + cropType.duration * 1000, false, false, [], 1.0))
      ensures !cropType.sustainable ==> (crops == old(crops) &&
        locationToCrop == old(locationToCrop) - {crop.location} &&
        playerCrops == old(playerCrops)[crop.ownerId := old(playerCrops)[crop.ownerId] - {crop.id}])
    {
      ghost var l0, g := locationToCrop, Growing();
      assert crop.id in g && crops[crop.id] == crop;
      crop.SetHarvested(true);
      locationToCrop := locationToCrop - {crop.location};
      assert locationToCrop[crop.location := crop] == l0;
      assert Growing() + {crop.id} == g;
      if cropType.sustainable {
        var newCrop := Replant(crop, newId, cropType.duration, now);
      } else {
        Retire(crop);
      }
    }

    /** The sustainable branch of `performHarvest`, once the crop is flagged
        harvested and its location freed: a fresh crop of the same type and
        owner with the base duration takes its place, in the owner's set in
        place of the harvested one. */
    method Replant(crop: Crop, newId: Uuid, duration: int, now: int) returns (newCrop: Crop)
      requires Consistent(crops, locationToCrop[crop.location := crop], playerCrops, Growing() + {crop.id})
      requires crop.id in crops && crops[crop.id] == crop && crop.harvested
      requires crop.location !in locationToCrop && newId !in crops
      modifies this`crops, this`locationToCrop, this`playerCrops
      ensures Valid()
      ensures fresh(newCrop)
      ensures newCrop.Record() == CropRecord(newId, crop.cropType, crop.ownerId, crop.ownerName, crop.location,
        now, duration * 1000, now + duration * 1000, false, false, [], 1.0)
      ensures crop.ownerId in old(playerCrops)
      ensures crops == old(crops)[newId := newCrop]
      ensures locationToCrop == old(locationToCrop)[crop.location := newCrop]
      ensures playerCrops == old(playerCrops)[crop.ownerId := old(playerCrops)[crop.ownerId] - {crop.id} + {newId}]
    {
      ghost var l0, g := locationToCrop[crop.location := crop], Growing() + {crop.id};
      newCrop := new Crop(newId, crop.cropType, crop.ownerId, crop.ownerName, crop.location, duration, now);
      ReplantKeeps(crops, l0, playerCrops, g, crop, newCrop);
      crops := crops[newId := newCrop];
      locationToCrop := locationToCrop[crop.location := newCrop];
      if crop.ownerId in playerCrops {
        playerCrops := playerCrops[crop.ownerId := playerCrops[crop.ownerId] - {crop.id} + {newId}];
      }
      assert locationToCrop == l0[crop.location := newCrop];
      assert Growing() == g - {crop.id} + {newId};
    }

    /** The other branch of `performHarvest`, once the crop is flagged
        harvested and its location freed: its id leaves its owner's set, and
        the crop itself stays in `crops`. */
    method Retire(crop: Crop)
      requires Consistent(crops, locationToCrop[crop.location := crop], playerCrops, Growing() + {crop.id})
      requires crop.id in crops && crops[crop.id] == crop && crop.harvested
      requires crop.location !in locationToCrop
      modifies this`playerCrops
      ensures Valid()
      ensures crop.ownerId in old(playerCrops)
      ensures playerCrops == old(playerCrops)[crop.ownerId := old(playerCrops)[crop.ownerId] - {crop.id}]
    {
      ghost var l0, g := locationToCrop[crop.location := crop], Growing() + {crop.id};
      RetireKeeps(crops, l0, playerCrops, g, crop);
      if crop.ownerId in playerCrops {
        playerCrops := playerCrops[crop.ownerId := playerCrops[crop.ownerId] - {crop.id}];
      }
      assert l0 - {crop.location} == locationToCrop;
    }

    /** `breakCrop`: fails, changing nothing, without a crop at the location
        or when the caller neither owns it nor is an admin; otherwise the
        crop is removed as by `RemoveCrop`. */
    method BreakCrop(playerId: Uuid, isAdmin: bool, location: Location) returns (ok: bool)
      requires Valid()
      requires players.Valid()
      modifies this`crops, this`locationToCrop, this`playerCrops, players.players.Values`activeCrops
      ensures Valid()
      ensures ok <==> (location in old(locationToCrop) &&
        (old(locationToCrop[location].IsOwner(Some(playerId))) || isAdmin))
      ensures !ok ==> (crops == old(crops) && locationToCrop == old(locationToCrop) &&
        playerCrops == old(playerCrops) && unchanged(players.players.Values))
      ensures ok ==> (
        var crop := old(locationToCrop)[location];
        crops == old(crops) - {crop.id} &&
        locationToCrop == old(locationToCrop) - {location} &&
        playerCrops == OwnedWithout(old(playerCrops), {crop.id}) &&
        ActiveCounts() == Decrement(old(ActiveCounts()), crop.ownerId))
    {
      if location !in locationToCrop {
        return false;
      }
      var crop := locationToCrop[location];
      if !crop.IsOwner(Some(playerId)) && !isAdmin {
        return false;
      }
      RemoveCrop(crop);
      return true;
    }

    /** `removeCrop`: the crop leaves all three indices (its location and
        its id in its owner's set) and its owner's active count drops by
        one, never below zero. */
    method RemoveCrop(crop: Crop)
      requires Valid()
      requires players.Valid()
      requires crop.id in crops && crops[crop.id] == crop && !crop.harvested
      modifies this`crops, this`locationToCrop, this`playerCrops, players.players.Values`activeCrops
      ensures Valid()
      ensures crops == old(crops) - {crop.id} && crops == CropsWithout(old(crops), {crop.id})
      ensures locationToCrop == old(locationToCrop) - {crop.location}
      ensures locationToCrop == LocationsWithout(old(locationToCrop), {crop.id})
      ensures playerCrops == OwnedWithout(old(playerCrops), {crop.id})
      ensures ActiveCounts() == Decrement(old(ActiveCounts()), crop.ownerId)
    {
      ghost var a := ActiveCounts();
      Unfile(crop);
      assert ActiveCounts() == a;
      DebitOwner(crop.ownerId);
    }

    /** The index half of `removeCrop`. */
    method Unfile(crop: Crop)
      requires Valid()
      requires crop.id in crops && crops[crop.id] == crop && !crop.harvested
      modifies this`crops, this`locationToCrop, this`playerCrops
      ensures Valid()
      ensures crops == old(crops) - {crop.id} && crops == CropsWithout(old(crops), {crop.id})
      ensures locationToCrop == old(locationToCrop) - {crop.location}
      ensures locationToCrop == LocationsWithout(old(locationToCrop), {crop.id})
      ensures playerCrops == OwnedWithout(old(playerCrops), {crop.id})
    {
      ghost var g := Growing();
      RemoveKeeps(crops, locationToCrop, playerCrops, g, crop);
      crops := crops - {crop.id};
      locationToCrop := locationToCrop - {crop.location};
      if crop.ownerId in playerCrops {
        playerCrops := playerCrops[crop.ownerId := playerCrops[crop.ownerId] - {crop.id}];
      }
      assert Growing() == g - {crop.id};
    }

    /** The player half of `removeCrop`: a loaded owner's active count drops
        by one, never below zero; nobody else's changes. */
    method DebitOwner(owner: Uuid)
      requires players.Valid()
      modifies players.players.Values`activeCrops
      ensures ActiveCounts() == Decrement(old(ActiveCounts()), owner)
    {
      var p := players.GetPlayer(owner);
      if p != null {
        p.SetActiveCrops(p.activeCrops - 1);
      }
    }

    /** The ids of the crops the decay sweep at `now` removes. */
    function DecayingIds(now: int, decayMultiplier: real): (r: set<Uuid>)
      reads this, crops.Values
      ensures forall id :: id in r <==> id in crops && crops[id].IsDecayTime(now, decayMultiplier)
    {
      set id | id in crops && crops[id].IsDecayTime(now, decayMultiplier)
    }

    /** One turn of the `updateCrops` loop: a crop whose decay time has come
        is marked decayed and removed as `removeCrop` does; any other has its
        block state refreshed. */
    method SweepOne(id: Uuid, now: int, decayMultiplier: real, airBlocks: set<Location>) returns (removed: bool)
      requires Valid()
      requires players.Valid()
      requires id in crops
      modifies this`crops, this`locationToCrop, this`playerCrops, {crops[id]}`decayed
      modifies players.players.Values`activeCrops
      ensures Valid()
      ensures removed == old(crops[id].IsDecayTime(now, decayMultiplier))
      ensures old(crops[id]).decayed ==
        (old(crops[id].decayed) || removed || (!old(crops[id]).harvested && old(crops[id]).location in airBlocks))
      ensures crops == CropsWithout(old(crops), if removed then {id} else {})
      ensures locationToCrop == LocationsWithout(old(locationToCrop), if removed then {id} else {})
      ensures playerCrops == OwnedWithout(old(playerCrops), if removed then {id} else {})
      ensures ActiveCounts() == if removed then Decrement(old(ActiveCounts()), old(crops[id]).ownerId)
        else old(ActiveCounts())
    {
      var crop := crops[id];
      if crop.IsDecayTime(now, decayMultiplier) {
        DecayOne(crop);
        removed := true;
      } else {
        RefreshOne(crop, crop.location in airBlocks);
        WithoutNothing(crops, locationToCrop, playerCrops);
        removed := false;
      }
    }

    /** The decay branch of the sweep: the crop is marked decayed and then
        removed as `removeCrop` does. */
    method DecayOne(crop: Crop)
      requires Valid()
      requires players.Valid()
      requires crop.id in crops && crops[crop.id] == crop && !crop.harvested
      modifies this`crops, this`locationToCrop, this`playerCrops, crop`decayed
      modifies players.players.Values`activeCrops
      ensures Valid()
      ensures crop.decayed
      ensures crops == CropsWithout(old(crops), {crop.id})
      ensures locationToCrop == LocationsWithout(old(locationToCrop), {crop.id})
      ensures playerCrops == OwnedWithout(old(playerCrops), {crop.id})
      ensures ActiveCounts() == Decrement(old(ActiveCounts()), crop.ownerId)
    {
      ghost var g, a := Growing(), ActiveCounts();
      crop.SetDecayed(true);
      assert Growing() == g && ActiveCounts() == a;
      RemoveCrop(crop);
    }

    /** The other branch of the sweep: `updateBlockState`. */
    method RefreshOne(crop: Crop, blockIsAir: bool)
      requires Valid()
      modifies crop`decayed
      ensures Valid()
      ensures crop.decayed == (old(crop.decayed) || (!crop.harvested && blockIsAir))
    {
      ghost var g := Growing();
      crop.UpdateBlockState(blockIsAir);
      assert Growing() == g;
    }

    /** The registry part way through the decay sweep: `c0`, `l0`, `o0` and
        `act0` are the indices and the active counts as the sweep found
        them, `pl` the loaded players, `gone` the ids whose decay time had
        come, and `done` the ids visited so far. */
    predicate Swept(c0: map<Uuid, Crop>, l0: map<Location, Crop>, o0: map<Uuid, set<Uuid>>,
                    act0: map<Uuid, int>, pl: map<Uuid, HerbalismPlayer>, gone: set<Uuid>, done: set<Uuid>)
      reads this`crops, this`locationToCrop, this`playerCrops, crops.Values`harvested
      reads players`players, players.players.Values`activeCrops
    {
      Valid() && players.Valid() && players.players == pl &&
      crops == CropsWithout(c0, gone * done) &&
      locationToCrop == LocationsWithout(l0, gone * done) &&
      playerCrops == OwnedWithout(o0, gone * done) &&
      ActiveCounts() == CountsAfter(act0, c0, gone * done)
    }

    /** One turn of the `updateCrops` loop, as a step of `Swept`: the crop's
        new decayed flag is the one `SweptFlags` gives it. */
    method SweepStep(id: Uuid, now: int, decayMultiplier: real, airBlocks: set<Location>,
                     ghost c0: map<Uuid, Crop>, ghost l0: map<Location, Crop>, ghost o0: map<Uuid, set<Uuid>>,
                     ghost act0: map<Uuid, int>, ghost pl: map<Uuid, HerbalismPlayer>,
                     ghost gone: set<Uuid>, ghost done: set<Uuid>)
      requires Swept(c0, l0, o0, act0, pl, gone, done)
      requires forall k :: k in c0 ==> c0[k].id == k
      requires id in c0 && id !in done
      requires id in gone <==> c0[id].IsDecayTime(now, decayMultiplier)
      modifies this`crops, this`locationToCrop, this`playerCrops, {c0[id]}`decayed, pl.Values`activeCrops
      ensures Swept(c0, l0, o0, act0, pl, gone, done + {id})
      ensures c0[id].decayed ==
        (old(c0[id].decayed) || id in gone || (!c0[id].harvested && c0[id].location in airBlocks))
      ensures forall k :: k in c0 ==> c0[k].harvested == old(c0[k].harvested)
      ensures forall k :: k in c0 ==> c0[k].harvestTime == old(c0[k].harvestTime)
      ensures forall k :: k in c0 && k != id ==> c0[k].decayed == old(c0[k].decayed)
    {
      assert crops[id] == c0[id];
      assert forall k :: k in c0 && k != id ==> c0[k] != c0[id];
      var removed := SweepOne(id, now, decayMultiplier, airBlocks);
      SweptStep(c0, l0, o0, act0, pl, gone, done, id, removed);
    }

    /** The indices and counts after one more visited id, as `Swept` states
        them. */
    lemma SweptStep(c0: map<Uuid, Crop>, l0: map<Location, Crop>, o0: map<Uuid, set<Uuid>>,
                    act0: map<Uuid, int>, pl: map<Uuid, HerbalismPlayer>, gone: set<Uuid>, done: set<Uuid>,
                    id: Uuid, removed: bool)
      requires Valid() && players.Valid() && players.players == pl
      requires id in c0 && id !in done && (removed <==> id in gone)
      requires crops == CropsWithout(CropsWithout(c0, gone * done), if removed then {id} else {})
      requires locationToCrop == LocationsWithout(LocationsWithout(l0, gone * done), if removed then {id} else {})
      requires playerCrops == OwnedWithout(OwnedWithout(o0, gone * done), if removed then {id} else {})
      requires ActiveCounts() == if removed then Decrement(CountsAfter(act0, c0, gone * done), c0[id].ownerId)
        else CountsAfter(act0, c0, gone * done)
      ensures Swept(c0, l0, o0, act0, pl, gone, done + {id})
    {
      SweepIndexStep(c0, l0, o0, gone, done, id, removed);
      CountsSweepStep(act0, c0, gone, done, id, removed);
    }

    /** `SweepStep` together with the flags of every crop of `c0`. */
    method SweepVisit(id: Uuid, now: int, decayMultiplier: real, airBlocks: set<Location>,
                      ghost c0: map<Uuid, Crop>, ghost l0: map<Location, Crop>, ghost o0: map<Uuid, set<Uuid>>,
                      ghost dec0: map<Uuid, bool>, ghost harv0: map<Uuid, bool>, ghost act0: map<Uuid, int>,
                      ghost pl: map<Uuid, HerbalismPlayer>, ghost ht0: map<Uuid, int>, ghost gone: set<Uuid>,
                      ghost done: set<Uuid>)
      requires forall k :: k in c0 ==> c0[k].id == k
      requires dec0.Keys == harv0.Keys == ht0.Keys == c0.Keys
      requires forall k :: k in gone <==> (k in c0 && !harv0[k] && !dec0[k] && now >= ht0[k] + TruncToInt(c0[k].originalDuration as real * decayMultiplier))
      requires id in c0 && id !in done
      requires Swept(c0, l0, o0, act0, pl, gone, done)
      requires Flagged(c0, dec0, harv0, ht0, gone, airBlocks, done)
      modifies this`crops, this`locationToCrop, this`playerCrops, {c0[id]}`decayed, pl.Values`activeCrops
      ensures Swept(c0, l0, o0, act0, pl, gone, done + {id})
      ensures Flagged(c0, dec0, harv0, ht0, gone, airBlocks, done + {id})
    {
      FlaggedPending(c0, dec0, harv0, ht0, gone, airBlocks, done, id, now, decayMultiplier);
      ghost var prev := DecayedFlags(c0);
      FlaggedSnapshot(c0, dec0, harv0, ht0, gone, airBlocks, done, prev);
      SweepStep(id, now, decayMultiplier, airBlocks, c0, l0, o0, act0, pl, gone, done);
      forall k | k in c0
        ensures c0[k].harvested == harv0[k] && c0[k].harvestTime == ht0[k]
        ensures k != id ==> c0[k].decayed == prev[k]
      {
        assert old(c0[k].harvested) == harv0[k] && old(c0[k].harvestTime) == ht0[k] && old(c0[k].decayed) == prev[k];
      }
      FlaggedStep(c0, dec0, harv0, ht0, gone, airBlocks, done, id, prev);
    }

    /** `updateCrops`: exactly the crops whose decay time has come are
        marked decayed and removed from every index, each lowering its
        owner's active count (never below zero); every other crop stays,
        with its block state refreshed. `airBlocks` holds the locations
        whose block is missing or air. */
    method UpdateCrops(now: int, decayMultiplier: real, airBlocks: set<Location>)
      requires Valid()
      requires players.Valid()
      modifies this`crops, this`locationToCrop, this`playerCrops
      modifies crops.Values`decayed, players.players.Values`activeCrops
      ensures Valid()
      ensures crops == CropsWithout(old(crops), old(DecayingIds(now, decayMultiplier)))
      ensures locationToCrop == LocationsWithout(old(locationToCrop), old(DecayingIds(now, decayMultiplier)))
      ensures playerCrops == OwnedWithout(old(playerCrops), old(DecayingIds(now, decayMultiplier)))
      ensures DecayedFlags(old(crops)) == SweptFlags(old(DecayedFlags(crops)), old(HarvestedFlags(crops)),
        old(crops), old(DecayingIds(now, decayMultiplier)), airBlocks, old(crops).Keys)
      ensures ActiveCounts() == CountsAfter(old(ActiveCounts()), old(crops), old(DecayingIds(now, decayMultiplier)))
    {
      ghost var c0, l0, o0 := crops, locationToCrop, playerCrops;
      ghost var dec0, harv0, act0 := DecayedFlags(crops), HarvestedFlags(crops), ActiveCounts();
      ghost var gone := DecayingIds(now, decayMultiplier);
      ghost var ht0 := HarvestTimes(crops);
      ghost var pl := players.players;
      assert forall k :: k in gone <==> (k in c0 && !harv0[k] && !dec0[k] && now >= ht0[k] + TruncToInt(c0[k].originalDuration as real * decayMultiplier));
      WithoutNothing(crops, locationToCrop, playerCrops);
      assert gone * {} == {};
      CountsNothing(act0, c0);
      assert SweptFlags(dec0, harv0, c0, gone, airBlocks, {}) == dec0;
      SweepAll(crops.Keys, now, decayMultiplier, airBlocks, c0, l0, o0, dec0, harv0, act0, pl, ht0, gone);
      assert gone * c0.Keys == gone;
      FlaggedAll(c0, dec0, harv0, ht0, gone, airBlocks);
    }

    /** The loop of `updateCrops`, visiting every id once. */
    method SweepAll(ids: set<Uuid>, now: int, decayMultiplier: real, airBlocks: set<Location>,
                    ghost c0: map<Uuid, Crop>, ghost l0: map<Location, Crop>, ghost o0: map<Uuid, set<Uuid>>,
                    ghost dec0: map<Uuid, bool>, ghost harv0: map<Uuid, bool>, ghost act0: map<Uuid, int>,
                    ghost pl: map<Uuid, HerbalismPlayer>, ghost ht0: map<Uuid, int>, ghost gone: set<Uuid>)
      requires ids == c0.Keys == dec0.Keys == harv0.Keys == ht0.Keys
      requires forall k :: k in c0 ==> c0[k].id == k
      requires forall k :: k in gone <==> (k in c0 && !harv0[k] && !dec0[k] && now >= ht0[k] + TruncToInt(c0[k].originalDuration as real * decayMultiplier))
      requires Swept(c0, l0, o0, act0, pl, gone, {})
      requires Flagged(c0, dec0, harv0, ht0, gone, airBlocks, {})
      modifies this`crops, this`locationToCrop, this`playerCrops, c0.Values`decayed, pl.Values`activeCrops
      ensures Swept(c0, l0, o0, act0, pl, gone, c0.Keys)
      ensures Flagged(c0, dec0, harv0, ht0, gone, airBlocks, c0.Keys)
    {
      var pending := ids;
      ghost var done: set<Uuid> := {};
      while pending != {}
        invariant pending !! done && pending + done == c0.Keys
        invariant Swept(c0, l0, o0, act0, pl, gone, done)
        invariant Flagged(c0, dec0, harv0, ht0, gone, airBlocks, done)
        decreases |pending|
      {
        var id :| id in pending;
        SweepVisit(id, now, decayMultiplier, airBlocks, c0, l0, o0, dec0, harv0, act0, pl, ht0, gone, done);
        Visit(pending, done, c0.Keys, id);
        pending := pending - {id};
        done := done + {id};
      }
    }

    /** `getCrop`. */
    function GetCrop(id: Uuid): (r: Crop?)
      reads this, crops.Values
      ensures r != null <==> id in crops
      ensures Valid() && r != null ==> r.id == id
    {
      if id in crops then crops[id] else null
    }

    /** `getCropAtLocation`: the growing crop standing there, if any. */
    function GetCropAtLocation(location: Location): (r: Crop?)
      reads this, crops.Values
      ensures r != null <==> location in locationToCrop
      ensures Valid() && r != null ==> r.location == location && !r.harvested && r in crops.Values
    {
      if location in locationToCrop then locationToCrop[location] else null
    }

    /** `getPlayerCrops`: the crops still in the registry among the owner's
        ids; all of them belong to that owner. */
    function GetPlayerCrops(playerId: Uuid): (r: set<Crop>)
      reads this, crops.Values
      ensures forall c :: c in r ==> c in crops.Values
      ensures Valid() ==> forall c :: c in r ==> c.ownerId == playerId && c.id in OwnedIds(playerId)
      ensures forall id :: id in OwnedIds(playerId) && id in crops ==> crops[id] in r
    {
      set id | id in OwnedIds(playerId) && id in crops :: crops[id]
    }

    /** `getPlayerCropCount`: the size of the owner's id set. */
    function GetPlayerCropCount(playerId: Uuid): (r: nat)
      reads this
      ensures playerId !in playerCrops ==> r == 0
      ensures r == |OwnedIds(playerId)|
    {
      if playerId in playerCrops then |playerCrops[playerId]| else 0
    }

    /** Under the registry invariant the count agrees with the crops
        returned: every id in an owner's set names a distinct crop. */
    lemma CountMatchesCrops(playerId: Uuid)
      requires Valid()
      ensures GetPlayerCropCount(playerId) == |GetPlayerCrops(playerId)|
    {
      var ids := OwnedIds(playerId);
      assert GetPlayerCrops(playerId) == set id | id in ids :: crops[id];
      ImageCard(ids, crops);
    }

    /** `shutdown`: all three indices are emptied (the save is a stub). */
    method Shutdown()
      modifies this`crops, this`locationToCrop, this`playerCrops
      ensures crops == map[] && locationToCrop == map[] && playerCrops == map[]
      ensures Valid()
    {
      crops := map[];
      locationToCrop := map[];
      playerCrops := map[];
    }
  }
}
