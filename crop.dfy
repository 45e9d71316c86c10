// A planted crop (crop/Crop.java): identity and timing fixed at planting,
// mutable harvest time, harvested/decayed flags, the players who fertilized
// it and a growth modifier. Times are milliseconds; `now` is a parameter.

module Crops {
  import opened Wrappers
  import opened JavaNum
  import opened Ids

  /** All of a crop's state as a value: what serialization and the
      database carry. */
  datatype CropRecord = CropRecord(
    id: Uuid,
    cropType: string,
    ownerId: Uuid,
    ownerName: string,
    location: Location,
    plantTime: int,
    originalDuration: int,
    harvestTime: int,
    harvested: bool,
    decayed: bool,
    fertilizedBy: seq<Uuid>,
    growthModifier: real)

  /** Each fertilizing player appears once. */
  predicate NoDup<T(==)>(xs: seq<T>)
  {
    forall i, j :: 0 <= i < j < |xs| ==> xs[i] != xs[j]
  }

  /** `HashSet.add`: the element is appended only when absent. */
  function AddOnce(xs: seq<Uuid>, u: Uuid): (r: seq<Uuid>)
    ensures u in r
    ensures forall v :: v in r <==> v in xs || v == u
    ensures NoDup(xs) ==> NoDup(r)
  {
    if u in xs then xs else xs + [u]
  }

  class Crop {
    const id: Uuid
    const cropType: string
    const ownerId: Uuid
    const ownerName: string
    const location: Location
    const plantTime: int
    const originalDuration: int
    var harvestTime: int
    var harvested: bool
    var decayed: bool
    var fertilizedBy: seq<Uuid>
    var growthModifier: real

    /** A new crop planted at `now` for `durationSeconds` seconds; `id` is
        the fresh random UUID. */
    constructor (id: Uuid, cropType: string, ownerId: Uuid, ownerName: string,
                 location: Location, durationSeconds: int, now: int)
      ensures Record() == CropRecord(id, cropType, ownerId, ownerName, location, now,
        durationSeconds * 1000, now + durationSeconds * 1000, false, false, [], 1.0)
      ensures durationSeconds >= 0 ==> harvestTime >= plantTime
    {
      this.id := id;
      this.cropType := cropType;
      this.ownerId := ownerId;
      this.ownerName := ownerName;
      this.location := location;
      this.plantTime := now;
      this.originalDuration := durationSeconds * 1000;
      this.harvestTime := now + durationSeconds * 1000;
      this.harvested := false;
      this.decayed := false;
      this.fertilizedBy := [];
      this.growthModifier := 1.0;
    }

    /** A crop carrying exactly the given state (what `deserialize` builds
        once every field has been patched). */
    constructor FromRecord(r: CropRecord)
      ensures Record() == r
    {
      id := r.id;
      cropType := r.cropType;
      ownerId := r.ownerId;
      ownerName := r.ownerName;
      location := r.location;
      plantTime := r.plantTime;
      originalDuration := r.originalDuration;
      harvestTime := r.harvestTime;
      harvested := r.harvested;
      decayed := r.decayed;
      fertilizedBy := r.fertilizedBy;
      growthModifier := r.growthModifier;
    }

    function Record(): CropRecord
      reads this
    {
      CropRecord(id, cropType, ownerId, ownerName, location, plantTime, originalDuration,
        harvestTime, harvested, decayed, fertilizedBy, growthModifier)
    }

    method SetHarvestTime(t: int)
      modifies this`harvestTime
      ensures harvestTime == t
    {
      harvestTime := t;
    }

    method SetHarvested(h: bool)
      modifies this`harvested
      ensures harvested == h
    {
      harvested := h;
    }

    method SetDecayed(d: bool)
      modifies this`decayed
      ensures decayed == d
    {
      decayed := d;
    }

    method SetGrowthModifier(m: real)
      modifies this`growthModifier
      ensures growthModifier == m
    {
      growthModifier := m;
    }

    /** `getFertilizedBy`: the set of players who fertilized the crop. */
    function FertilizedBySet(): (s: set<Uuid>)
      reads this
      ensures forall u :: u in s <==> u in fertilizedBy
    {
      set u | u in fertilizedBy
    }

    predicate HasFertilizedBy(playerId: Uuid)
      reads this
    {
      playerId in fertilizedBy
    }

    /** `hasFertilizedBy` agrees with the set `getFertilizedBy` returns. */
    lemma FertilizedByMatchesSet(playerId: Uuid)
      ensures HasFertilizedBy(playerId) <==> playerId in FertilizedBySet()
    {
    }

    method AddFertilizedBy(playerId: Uuid)
      modifies this`fertilizedBy
      ensures fertilizedBy == AddOnce(old(fertilizedBy), playerId)
      ensures HasFertilizedBy(playerId)
      ensures forall p :: p != playerId ==> (HasFertilizedBy(p) <==> old(HasFertilizedBy(p)))
    {
      fertilizedBy := AddOnce(fertilizedBy, playerId);
    }

    /** `isReadyForHarvest`: neither harvested nor decayed, and the harvest
        time has come. */
    predicate IsReadyForHarvest(now: int)
      reads this
    {
      !harvested && !decayed && now >= harvestTime
    }

    /** The moment the crop decays: the harvest time plus the original
        duration scaled by the decay multiplier (cast to long). */
    function DecayTime(decayMultiplier: real): (t: int)
      reads this`harvestTime
      ensures originalDuration >= 0 && decayMultiplier >= 0.0 ==> t >= harvestTime
    {
      harvestTime + TruncToInt(originalDuration as real * decayMultiplier)
    }

    /** `isDecayTime`: false once harvested or decayed; otherwise whether
        the decay moment has come. */
    predicate IsDecayTime(now: int, decayMultiplier: real)
      reads this
    {
      !harvested && !decayed && now >= DecayTime(decayMultiplier)
    }

    /** With a non-negative duration and multiplier, a crop whose decay
        moment has come is also ready for harvest. */
    lemma DecayImpliesReady(now: int, decayMultiplier: real)
      requires originalDuration >= 0 && decayMultiplier >= 0.0
      ensures IsDecayTime(now, decayMultiplier) ==> IsReadyForHarvest(now)
    {
    }

    /** Readiness and decay only come with time, and never to a crop already
        harvested or decayed. */
    lemma ReadinessPersists(now: int, later: int, decayMultiplier: real)
      requires now <= later
      ensures IsReadyForHarvest(now) ==> IsReadyForHarvest(later)
      ensures IsDecayTime(now, decayMultiplier) ==> IsDecayTime(later, decayMultiplier)
      ensures harvested || decayed ==> !IsReadyForHarvest(now) && !IsDecayTime(now, decayMultiplier)
    {
    }

    /** `getTimeUntilHarvest`: zero when ready, else the milliseconds left,
        never negative. */
    function TimeUntilHarvest(now: int): (r: int)
      reads this
      ensures r >= 0
      ensures IsReadyForHarvest(now) ==> r == 0
      ensures !harvested && !decayed ==> (r == 0 <==> IsReadyForHarvest(now))
      ensures r > 0 ==> now + r == harvestTime
      ensures harvestTime > now ==> r == harvestTime - now
      ensures harvestTime <= now ==> r == 0
    {
      if IsReadyForHarvest(now) then 0 else Max(0, harvestTime - now)
    }

    /** `getTimeUntilDecay`: zero when the decay time has come, else the
        milliseconds left, never negative. */
    function TimeUntilDecay(now: int, decayMultiplier: real): (r: int)
      reads this
      ensures r >= 0
      ensures IsDecayTime(now, decayMultiplier) ==> r == 0
      ensures !harvested && !decayed ==> (r == 0 <==> IsDecayTime(now, decayMultiplier))
      ensures r > 0 ==> now + r == DecayTime(decayMultiplier)
      ensures DecayTime(decayMultiplier) > now ==> r == DecayTime(decayMultiplier) - now
      ensures DecayTime(decayMultiplier) <= now ==> r == 0
    {
      if IsDecayTime(now, decayMultiplier) then 0 else Max(0, DecayTime(decayMultiplier) - now)
    }

    /** `isOwner(UUID)`: a null id is never the owner. */
    predicate IsOwner(playerId: Option<Uuid>)
      reads this
    {
      playerId.Some? && playerId.value == ownerId
    }

    /** Exactly the owner's id is the owner; no id (null) never is. */
    lemma OwnerIsUnique(playerId: Option<Uuid>)
      ensures IsOwner(playerId) <==> playerId == Some(ownerId)
      ensures !IsOwner(None)
    {
    }

    /** `fertilize(UUID, long)`: each player fertilizes a crop at most once;
        the first time pulls the harvest time earlier by `timeReduction`,
        never before the plant time. */
    method Fertilize(playerId: Uuid, timeReduction: int)
      modifies this`fertilizedBy, this`harvestTime
      ensures old(HasFertilizedBy(playerId)) ==>
        fertilizedBy == old(fertilizedBy) && harvestTime == old(harvestTime)
      ensures !old(HasFertilizedBy(playerId)) ==>
        fertilizedBy == old(fertilizedBy) + [playerId] &&
        harvestTime == Max(plantTime, old(harvestTime) - timeReduction)
      ensures old(harvestTime) >= plantTime ==> harvestTime >= plantTime
      ensures timeReduction >= 0 && old(harvestTime) >= plantTime ==> harvestTime <= old(harvestTime)
      ensures NoDup(old(fertilizedBy)) ==> NoDup(fertilizedBy)
    {
      if !HasFertilizedBy(playerId) {
        AddFertilizedBy(playerId);
        harvestTime := Max(plantTime, harvestTime - timeReduction);
      }
    }

    /** The reduction `fertilize(UUID, double)` applies: the given percentage
        of the original duration, cast to long. */
    function PercentReduction(percentReduction: real): (r: int)
      reads this
      ensures originalDuration >= 0 && 0.0 <= percentReduction ==> r >= 0
      ensures originalDuration >= 0 && 0.0 <= percentReduction <= 100.0 ==> r <= originalDuration
    {
      PercentBounds(originalDuration, percentReduction);
      TruncToInt(originalDuration as real * (percentReduction / 100.0))
    }

    /** `fertilize(UUID, double)`: as `Fertilize`, with the reduction given
        as a percentage of the original duration. */
    method FertilizePercent(playerId: Uuid, percentReduction: real)
      modifies this`fertilizedBy, this`harvestTime
      ensures old(HasFertilizedBy(playerId)) ==>
        fertilizedBy == old(fertilizedBy) && harvestTime == old(harvestTime)
      ensures !old(HasFertilizedBy(playerId)) ==>
        fertilizedBy == old(fertilizedBy) + [playerId] &&
        harvestTime == Max(plantTime, old(harvestTime) - PercentReduction(percentReduction))
      ensures old(harvestTime) >= plantTime ==> harvestTime >= plantTime
      ensures NoDup(old(fertilizedBy)) ==> NoDup(fertilizedBy)
    {
      if !HasFertilizedBy(playerId) {
        AddFertilizedBy(playerId);
        var reduction := PercentReduction(percentReduction);
        harvestTime := Max(plantTime, harvestTime - reduction);
      }
    }

    /** The block-state part of `updateBlockState`: a crop still growing whose
        block is missing or air is marked decayed; the visual age update is
        not modelled. */
    method UpdateBlockState(blockIsAir: bool)
      modifies this`decayed
      ensures decayed == (old(decayed) || (!harvested && blockIsAir))
    {
      if harvested || decayed {
        return;
      }
      if blockIsAir {
        SetDecayed(true);
      }
    }

    /** `serialize`. */
    function Serialize(): (data: map<string, Value>)
      reads this
      ensures data == Encode(Record())
    {
      Encode(Record())
    }

    /** `equals`: two crops are equal exactly when their ids are. */
    predicate Equals(other: Crop?)
      reads {}
    {
      other != null && other.id == id
    }

    /** `hashCode` = `Objects.hash(id)`, given the JDK's `UUID.hashCode`. */
    function HashCode(uuidHash: Uuid -> int): int
    {
      31 + uuidHash(id)
    }
  }

  lemma PercentBounds(duration: int, percent: real)
    ensures duration >= 0 && 0.0 <= percent ==> TruncToInt(duration as real * (percent / 100.0)) >= 0
    ensures duration >= 0 && 0.0 <= percent <= 100.0 ==>
      TruncToInt(duration as real * (percent / 100.0)) <= duration
  {
    var d, p := duration as real, percent / 100.0;
    if duration >= 0 && 0.0 <= percent {
      assert d * p >= 0.0;
      if percent <= 100.0 {
        assert d * (1.0 - p) >= 0.0;
        assert d * (1.0 - p) == d - d * p;
      }
    }
  }

  /** `equals` is an equivalence, and equal crops have equal hash codes. */
  lemma EqualsAgreesWithHash(a: Crop, b: Crop, c: Crop, uuidHash: Uuid -> int)
    ensures a.Equals(a)
    ensures a.Equals(b) <==> b.Equals(a)
    ensures a.Equals(b) && b.Equals(c) ==> a.Equals(c)
    ensures a.Equals(b) ==> a.HashCode(uuidHash) == b.HashCode(uuidHash)
  {
  }

  // -----------------------------------------------------------------------
  // serialize / deserialize

  /** The values a serialized crop map holds: String, Long, Double, Boolean
      and List<String>. */
  datatype Value = VString(s: string) | VLong(n: int) | VDouble(d: real) | VBool(b: bool) | VList(items: seq<string>)

  /** The map `serialize` produces. Coordinates are stored as doubles and the
      fertilizer set as a list of UUID strings. */
  function Encode(r: CropRecord): (data: map<string, Value>)
    ensures data.Keys == {"id", "crop_type", "owner_id", "owner_name", "world", "x", "y", "z",
      "plant_time", "original_duration", "harvest_time", "harvested", "decayed",
      "fertilized_by", "growth_modifier"}
  {
    map[
      "id" := VString(r.id),
      "crop_type" := VString(r.cropType),
      "owner_id" := VString(r.ownerId),
      "owner_name" := VString(r.ownerName),
      "world" := VString(r.location.world),
      "x" := VDouble(r.location.x as real),
      "y" := VDouble(r.location.y as real),
      "z" := VDouble(r.location.z as real),
      "plant_time" := VLong(r.plantTime),
      "original_duration" := VLong(r.originalDuration),
      "harvest_time" := VLong(r.harvestTime),
      "harvested" := VBool(r.harvested),
      "decayed" := VBool(r.decayed),
      "fertilized_by" := VList(r.fertilizedBy),
      "growth_modifier" := VDouble(r.growthModifier)
    ]
  }

  function GetString(data: map<string, Value>, key: string): Option<string>
  {
    if key in data && data[key].VString? then Some(data[key].s) else None
  }

  /** `((Number) v).doubleValue()`. */
  function GetReal(data: map<string, Value>, key: string): Option<real>
  {
    if key !in data then None
    else match data[key]
      case VLong(n) => Some(n as real)
      case VDouble(d) => Some(d)
      case _ => None
  }

  /** `((Number) v).longValue()`: a double is truncated toward zero. */
  function GetLong(data: map<string, Value>, key: string): Option<int>
  {
    if key !in data then None
    else match data[key]
      case VLong(n) => Some(n)
      case VDouble(d) => Some(TruncToInt(d))
      case _ => None
  }

  function GetBool(data: map<string, Value>, key: string): Option<bool>
  {
    if key in data && data[key].VBool? then Some(data[key].b) else None
  }

  /** The loop adding each listed fertilizer: it stops at the first string
      that is not a UUID (the exception the surrounding try catches); the
      flag says whether the loop ran to the end. */
  function AddAllFertilizers(acc: seq<Uuid>, items: seq<string>): (r: (seq<Uuid>, bool))
    ensures NoDup(acc) ==> NoDup(r.0)
    ensures r.1 <==> forall i :: 0 <= i < |items| ==> ParseUuid(items[i]).Some?
    decreases |items|
  {
    if |items| == 0 then (acc, true)
    else match ParseUuid(items[0])
      case None => (acc, false)
      case Some(u) =>
        var rest := AddAllFertilizers(AddOnce(acc, u), items[1..]);
        assert forall i :: 1 <= i < |items| ==> items[i] == items[1..][i - 1];
        rest
  }

  /** The identity fields: both ids must be UUIDs; type, owner name and
      world must be strings. */
  function DecodeIdentity(data: map<string, Value>): Option<(Uuid, string, Uuid, string, string)>
  {
    var id := GetString(data, "id");
    var cropType := GetString(data, "crop_type");
    var owner := GetString(data, "owner_id");
    var ownerName := GetString(data, "owner_name");
    var world := GetString(data, "world");
    if id.None? || ParseUuid(id.value).None? || cropType.None? || owner.None? ||
       ParseUuid(owner.value).None? || ownerName.None? || world.None? then None
    else Some((ParseUuid(id.value).value, cropType.value, ParseUuid(owner.value).value,
      ownerName.value, world.value))
  }

  /** The coordinates, read as numbers and floored to block positions. */
  function DecodeCoordinates(data: map<string, Value>): Option<(int, int, int)>
  {
    var x := GetReal(data, "x");
    var y := GetReal(data, "y");
    var z := GetReal(data, "z");
    if x.None? || y.None? || z.None? then None
    else Some((x.value.Floor, y.value.Floor, z.value.Floor))
  }

  /** Plant time, original duration and harvest time, then the two flags. */
  function DecodeTimes(data: map<string, Value>): Option<(int, int, int, bool, bool)>
  {
    var plantTime := GetLong(data, "plant_time");
    var duration := GetLong(data, "original_duration");
    var harvestTime := GetLong(data, "harvest_time");
    var harvested := GetBool(data, "harvested");
    var decayed := GetBool(data, "decayed");
    if plantTime.None? || duration.None? || harvestTime.None? || harvested.None? || decayed.None?
    then None
    else Some((plantTime.value, duration.value, harvestTime.value, harvested.value, decayed.value))
  }

  /** The fertilizers read inside the try block, and whether the block went
      on past them. */
  function DecodeFertilizers(data: map<string, Value>): (seq<Uuid>, bool)
  {
    if "fertilized_by" !in data then ([], true)
    else if data["fertilized_by"].VList? then AddAllFertilizers([], data["fertilized_by"].items)
    else ([], false)
  }

  /** The growth modifier: read only when the try block got that far and the
      value is a Double; otherwise the default 1.0 stays. */
  function DecodeModifier(data: map<string, Value>, reached: bool): real
  {
    if reached && "growth_modifier" in data && data["growth_modifier"].VDouble?
    then data["growth_modifier"].d else 1.0
  }

  /** `deserialize`: None stands for an exception that escapes it (a missing
      or mistyped id, type, owner, world, coordinate, time or flag, or an id
      that is not a UUID). The try block that follows cannot escape: a
      fertilizer entry that is not a UUID, or a fertilizer value that is not
      a list, ends it early, keeping the fertilizers added so far and the
      default growth modifier 1.0. */
  function Decode(data: map<string, Value>): (r: Option<CropRecord>)
    ensures r.Some? <==>
      (DecodeIdentity(data).Some? && DecodeCoordinates(data).Some? && DecodeTimes(data).Some?)
    ensures r.Some? ==> r.value.id == GetString(data, "id").value
    ensures r.Some? ==> r.value.fertilizedBy == DecodeFertilizers(data).0
    ensures r.Some? && !DecodeFertilizers(data).1 ==> r.value.growthModifier == 1.0
  {
    var ident := DecodeIdentity(data);
    var coords := DecodeCoordinates(data);
    var times := DecodeTimes(data);
    if ident.None? || coords.None? || times.None? then None
    else
      var (id, cropType, owner, ownerName, world) := ident.value;
      var (x, y, z) := coords.value;
      var (plantTime, duration, harvestTime, harvested, decayed) := times.value;
      var (fertilizers, completed) := DecodeFertilizers(data);
      Some(CropRecord(id, cropType, owner, ownerName, Location(world, x, y, z),
        plantTime, duration, harvestTime, harvested, decayed,
        fertilizers, DecodeModifier(data, completed)))
  }

  /** `Crop.deserialize`: null stands for the escaping exception. */
  method Deserialize(data: map<string, Value>) returns (crop: Crop?)
    ensures crop == null <==> Decode(data).None?
    ensures crop != null ==> fresh(crop) && crop.Record() == Decode(data).value
  {
    var r := Decode(data);
    if r.None? {
      return null;
    }
    crop := new Crop.FromRecord(r.value);
  }

  lemma {:induction false} AddAllDistinct(acc: seq<Uuid>, xs: seq<Uuid>)
    requires NoDup(acc + xs)
    ensures AddAllFertilizers(acc, xs) == (acc + xs, true)
    decreases |xs|
  {
    if |xs| == 0 {
      assert acc + xs == acc;
    } else {
      assert (acc + xs)[|acc|] == xs[0];
      assert forall i :: 0 <= i < |acc| ==> (acc + xs)[i] == acc[i];
      assert ParseUuid(xs[0]) == Some(xs[0]);
      assert AddOnce(acc, xs[0]) == acc + [xs[0]];
      assert acc + [xs[0]] + xs[1..] == acc + xs;
      AddAllDistinct(acc + [xs[0]], xs[1..]);
    }
  }

  lemma RoundTripIdentity(r: CropRecord)
    ensures DecodeIdentity(Encode(r)) == Some((r.id, r.cropType, r.ownerId, r.ownerName, r.location.world))
  {
    var data := Encode(r);
    assert data["id"] == VString(r.id);
    assert data["owner_id"] == VString(r.ownerId);
  }

  lemma RoundTripCoordinates(r: CropRecord)
    ensures DecodeCoordinates(Encode(r)) == Some((r.location.x, r.location.y, r.location.z))
  {
    var data := Encode(r);
    assert GetReal(data, "x") == Some(r.location.x as real);
    assert GetReal(data, "y") == Some(r.location.y as real);
    assert GetReal(data, "z") == Some(r.location.z as real);
  }

  lemma RoundTripTimes(r: CropRecord)
    ensures DecodeTimes(Encode(r)) == Some((r.plantTime, r.originalDuration, r.harvestTime, r.harvested, r.decayed))
  {
  }

  lemma RoundTripFertilizers(r: CropRecord)
    requires NoDup(r.fertilizedBy)
    ensures DecodeFertilizers(Encode(r)) == (r.fertilizedBy, true)
  {
    assert [] + r.fertilizedBy == r.fertilizedBy;
    AddAllDistinct([], r.fertilizedBy);
  }

  /** Serializing a crop whose fertilizer list has no repeats and
      deserializing the map gives the same crop back. */
  lemma SerializeRoundTrip(r: CropRecord)
    requires NoDup(r.fertilizedBy)
    ensures Decode(Encode(r)) == Some(r)
  {
    RoundTripIdentity(r);
    RoundTripCoordinates(r);
    RoundTripTimes(r);
    RoundTripFertilizers(r);
  }
}
