// The SQLite store (database/SQLiteDatabase.java) at the level of records:
// the two tables as maps keyed by their primary key, the connected flag and
// the connection pool's open state. A statement that throws an SQLException
// on a live connection is an input (`fails`); the set of loaded worlds and
// the order rows come back from a query are parameters.

module SqliteStore {
  import opened Wrappers
  import opened JavaNum
  import opened Text
  import opened Ids
  import opened Crops
  import opened Players

  /** A row of `herbalism_players`. */
  datatype PlayerRow = PlayerRow(
    uuid: Uuid,
    name: string,
    level: int,
    experience: int,
    totalPlants: int,
    maxPlants: int,
    totalHarvests: int,
    totalFertilizersUsed: int,
    totalCropsPlanted: int,
    totalPlayTime: int,
    firstJoined: int,
    lastSeen: int,
    activeCrops: int)

  /** A row of `herbalism_crops`. The coordinates are REAL columns holding a
      block position, so they are whole numbers here; `fertilizedBy` is None
      for SQL NULL. */
  datatype CropRow = CropRow(
    id: Uuid,
    cropType: string,
    ownerId: Uuid,
    ownerName: string,
    world: string,
    x: int,
    y: int,
    z: int,
    plantTime: int,
    originalDuration: int,
    harvestTime: int,
    harvested: bool,
    decayed: bool,
    fertilizedBy: Option<string>,
    growthModifier: real)

  /** The row `savePlayer` writes. */
  function PlayerRowOf(p: HerbalismPlayer): PlayerRow
    reads p
  {
    PlayerRow(p.uuid, p.name, p.level, p.experience, p.totalPlants, p.maxPlants, p.totalHarvests,
      p.totalFertilizersUsed, p.totalCropsPlanted, p.totalPlayTime, p.firstJoined, p.lastSeen, p.activeCrops)
  }

  /** The fields of the player `loadPlayer` builds when no row is found or
      the query fails: a new player. */
  function DefaultRow(uuid: Uuid, name: string, config: PlayerConfig, now: int): PlayerRow
  {
    PlayerRow(uuid, name, 1, 0, config.baseTotalPlants, config.maxTotalPlants, 0, 0, 0, 0, now, now, 0)
  }

  /** The fields of the player `loadPlayer` builds from a row: each stored
      value passes through its setter, in the source's order. The plant
      limit is clamped against the new player's default maximum, because
      `setTotalPlants` runs before `setMaxPlants`. */
  function LoadedRow(row: PlayerRow, name: string, config: PlayerConfig): (r: PlayerRow)
    ensures r.level >= 1 && (config.maxLevel >= 1 ==> r.level <= config.maxLevel)
    ensures r.experience >= 0 && r.totalPlants >= 0 && r.maxPlants >= 1 && r.activeCrops >= 0
    ensures config.maxTotalPlants >= 0 ==> r.totalPlants <= config.maxTotalPlants
  {
    PlayerRow(row.uuid, name,
      Max(1, Min(row.level, config.maxLevel)),
      Max(0, row.experience),
      Max(0, Min(row.totalPlants, config.maxTotalPlants)),
      Max(1, row.maxPlants),
      row.totalHarvests, row.totalFertilizersUsed, row.totalCropsPlanted, row.totalPlayTime,
      row.firstJoined, row.lastSeen,
      Max(0, row.activeCrops))
  }

  /** Every stored value the setters accept unchanged. */
  predicate WithinSetters(row: PlayerRow, config: PlayerConfig)
  {
    1 <= row.level <= config.maxLevel && row.experience >= 0 &&
    0 <= row.totalPlants <= config.maxTotalPlants && row.maxPlants >= 1 && row.activeCrops >= 0
  }

  /** A saved row whose values the setters accept loads back as it was. */
  lemma LoadSavedRow(row: PlayerRow, config: PlayerConfig)
    requires WithinSetters(row, config)
    ensures LoadedRow(row, row.name, config) == row
  {
  }

  /** Loading what was loaded changes nothing more. */
  lemma LoadedRowSettles(row: PlayerRow, name: string, config: PlayerConfig)
    requires config.maxLevel >= 1 && config.maxTotalPlants >= 0
    ensures LoadedRow(LoadedRow(row, name, config), name, config) == LoadedRow(row, name, config)
  {
  }

  /** The order of the setters shows: a consistent row whose plant limit is
      above the configured default maximum loads with its plant limit cut
      down to that default. */
  lemma PlantLimitCutToDefault(row: PlayerRow, config: PlayerConfig)
    requires config.maxTotalPlants < row.totalPlants <= row.maxPlants && config.maxTotalPlants >= 0
    ensures LoadedRow(row, row.name, config).totalPlants == config.maxTotalPlants < row.totalPlants
    ensures LoadedRow(row, row.name, config).maxPlants == row.maxPlants
  {
  }

  /** The `fertilized_by` column: NULL for no fertilizers, otherwise the
      UUIDs joined by commas. */
  function FertilizedByColumn(fertilizedBy: seq<Uuid>): (r: Option<string>)
    ensures r.None? <==> |fertilizedBy| == 0
  {
    if |fertilizedBy| == 0 then None else Some(Join(fertilizedBy, ','))
  }

  /** The row `saveCrop` writes. */
  function CropRowOf(r: CropRecord): CropRow
  {
    CropRow(r.id, r.cropType, r.ownerId, r.ownerName, r.location.world, r.location.x, r.location.y,
      r.location.z, r.plantTime, r.originalDuration, r.harvestTime, r.harvested, r.decayed,
      FertilizedByColumn(r.fertilizedBy), r.growthModifier)
  }

  /** The row's columns as a crop without fertilizers. */
  function RowRecord(row: CropRow): CropRecord
  {
    CropRecord(row.id, row.cropType, row.ownerId, row.ownerName, Location(row.world, row.x, row.y, row.z),
      row.plantTime, row.originalDuration, row.harvestTime, row.harvested, row.decayed, [], row.growthModifier)
  }

  /** The map `createCropFromResultSet` hands to `Crop.deserialize`: the
      keys and value types `serialize` writes, coordinates as doubles; the
      fertilizers, split on commas, are added only for a column that is
      neither NULL nor empty. */
  function RowData(row: CropRow): map<string, Value>
  {
    var base := Encode(RowRecord(row)) - {"fertilized_by"};
    if row.fertilizedBy.Some? && row.fertilizedBy.value != "" then
      base["fertilized_by" := VList(Split(row.fertilizedBy.value, ','))]
    else base
  }

  /** Splitting the column on commas gives the fertilizers back, because a
      UUID's text holds no comma and is never empty. */
  lemma FertilizedByRoundTrip(fertilizedBy: seq<Uuid>)
    requires |fertilizedBy| > 0
    ensures FertilizedByColumn(fertilizedBy).value != ""
    ensures Split(FertilizedByColumn(fertilizedBy).value, ',') == fertilizedBy
  {
    forall i | 0 <= i < |fertilizedBy|
      ensures fertilizedBy[i] != "" && ',' !in fertilizedBy[i]
    {
      UuidTextHasNoComma(fertilizedBy[i]);
    }
    SplitJoin(fertilizedBy, ',');
    if |fertilizedBy| == 1 {
      assert Join(fertilizedBy, ',') == fertilizedBy[0];
    } else {
      assert Join(fertilizedBy, ',')[..|fertilizedBy[0]|] == fertilizedBy[0];
    }
  }

  /** Two maps that agree on every key other than the fertilizers. */
  ghost predicate SameFields(d1: map<string, Value>, d2: map<string, Value>)
  {
    forall k :: k != "fertilized_by" ==> (k in d1 <==> k in d2) && (k in d1 ==> d1[k] == d2[k])
  }

  /** Decoding reads every field but the fertilizers from those keys alone. */
  lemma SameFieldsDecode(d1: map<string, Value>, d2: map<string, Value>)
    requires SameFields(d1, d2)
    ensures DecodeIdentity(d1) == DecodeIdentity(d2)
    ensures DecodeCoordinates(d1) == DecodeCoordinates(d2)
    ensures DecodeTimes(d1) == DecodeTimes(d2)
    ensures DecodeModifier(d1, true) == DecodeModifier(d2, true)
  {
    SameIdentity(d1, d2);
    SameCoordinates(d1, d2);
    SameTimes(d1, d2);
    assert "growth_modifier" != "fertilized_by";
  }

  lemma SameIdentity(d1: map<string, Value>, d2: map<string, Value>)
    requires SameFields(d1, d2)
    ensures DecodeIdentity(d1) == DecodeIdentity(d2)
  {
    assert forall k :: k in {"id", "crop_type", "owner_id", "owner_name", "world"} ==>
      GetString(d1, k) == GetString(d2, k);
  }

  lemma SameCoordinates(d1: map<string, Value>, d2: map<string, Value>)
    requires SameFields(d1, d2)
    ensures DecodeCoordinates(d1) == DecodeCoordinates(d2)
  {
    assert forall k :: k in {"x", "y", "z"} ==> GetReal(d1, k) == GetReal(d2, k);
  }

  lemma SameTimes(d1: map<string, Value>, d2: map<string, Value>)
    requires SameFields(d1, d2)
    ensures DecodeTimes(d1) == DecodeTimes(d2)
  {
    assert forall k :: k in {"plant_time", "original_duration", "harvest_time"} ==> GetLong(d1, k) == GetLong(d2, k);
    assert forall k :: k in {"harvested", "decayed"} ==> GetBool(d1, k) == GetBool(d2, k);
  }

  /** A row's map agrees with the serialized map of its columns. */
  lemma RowDataFields(row: CropRow)
    ensures SameFields(RowData(row), Encode(RowRecord(row)))
    ensures DecodeIdentity(RowData(row)) == Some((row.id, row.cropType, row.ownerId, row.ownerName, row.world))
    ensures DecodeCoordinates(RowData(row)) == Some((row.x, row.y, row.z))
    ensures DecodeTimes(RowData(row)) ==
      Some((row.plantTime, row.originalDuration, row.harvestTime, row.harvested, row.decayed))
    ensures DecodeModifier(RowData(row), true) == row.growthModifier
  {
    var rr := RowRecord(row);
    SameFieldsDecode(RowData(row), Encode(rr));
    SerializeRoundTrip(rr);
    RoundTripFertilizers(rr);
  }

  /** Saving a crop whose fertilizer list has no repeats and reading its
      row back rebuilds the same crop. */
  lemma CropRowRoundTrip(r: CropRecord)
    requires NoDup(r.fertilizedBy)
    ensures Decode(RowData(CropRowOf(r))) == Some(r)
  {
    var row := CropRowOf(r);
    RowDataFields(row);
    var data := RowData(row);
    if |r.fertilizedBy| > 0 {
      FertilizedByRoundTrip(r.fertilizedBy);
      assert data["fertilized_by"] == VList(r.fertilizedBy);
      assert [] + r.fertilizedBy == r.fertilizedBy;
      AddAllDistinct([], r.fertilizedBy);
    } else {
      assert "fertilized_by" !in data;
    }
    assert DecodeFertilizers(data) == (r.fertilizedBy, true);
  }

  /** The crop a row reads back as, or None when its world is not loaded. */
  function RowCrop(row: CropRow, worlds: set<string>): Option<CropRecord>
  {
    if row.world !in worlds then None else Decode(RowData(row))
  }

  /** A row always decodes, to a crop carrying the row's identity, place and
      flags. */
  lemma RowDecodes(row: CropRow)
    ensures Decode(RowData(row)).Some?
    ensures var c := Decode(RowData(row)).value;
      c.id == row.id && c.ownerId == row.ownerId && c.location.world == row.world &&
      c.harvested == row.harvested && c.decayed == row.decayed
  {
    RowDataFields(row);
  }

  /** The rows a crop query selects: not harvested, and owned by `owner`
      when one is given. */
  predicate Selected(row: CropRow, owner: Option<Uuid>)
  {
    !row.harvested && (owner.None? || row.ownerId == owner.value)
  }

  /** The crops a query returns, visiting the rows in `order`: each selected
      row whose world is loaded. */
  function LoadableRecords(rows: map<Uuid, CropRow>, order: seq<Uuid>, worlds: set<string>,
                           owner: Option<Uuid>): seq<CropRecord>
    requires forall i :: 0 <= i < |order| ==> order[i] in rows
  {
    if |order| == 0 then []
    else LoadableRecords(rows, order[..|order| - 1], worlds, owner) + RowResult(rows[order[|order| - 1]], worlds, owner)
  }

  /** What one row contributes to a crop query. */
  function RowResult(row: CropRow, worlds: set<string>, owner: Option<Uuid>): seq<CropRecord>
  {
    if Selected(row, owner) && RowCrop(row, worlds).Some? then [RowCrop(row, worlds).value] else []
  }

  /** Each row is stored under its own id. */
  predicate Keyed(rows: map<Uuid, CropRow>)
  {
    forall id :: id in rows ==> rows[id].id == id
  }

  /** A crop query returns exactly the selected rows whose world is loaded:
      never a harvested crop, never one in an unloaded world, never another
      owner's crop. */
  lemma {:induction false} LoadableExactly(rows: map<Uuid, CropRow>, order: seq<Uuid>, worlds: set<string>,
                                           owner: Option<Uuid>)
    requires Keyed(rows) && forall i :: 0 <= i < |order| ==> order[i] in rows
    ensures forall c :: c in LoadableRecords(rows, order, worlds, owner) ==>
      c.id in order && Selected(rows[c.id], owner) && rows[c.id].world in worlds
    ensures forall id :: id in order && Selected(rows[id], owner) && rows[id].world in worlds ==>
      exists c :: c in LoadableRecords(rows, order, worlds, owner) && c.id == id
    ensures forall c :: c in LoadableRecords(rows, order, worlds, owner) ==>
      !c.harvested && c.location.world in worlds && (owner.Some? ==> c.ownerId == owner.value)
  {
    if |order| > 0 {
      var front := order[..|order| - 1];
      var id := order[|order| - 1];
      LoadableExactly(rows, front, worlds, owner);
      RowDecodes(rows[id]);
      var result := LoadableRecords(rows, order, worlds, owner);
      var before := LoadableRecords(rows, front, worlds, owner);
      forall c | c in result
        ensures c.id in order && Selected(rows[c.id], owner) && rows[c.id].world in worlds
      {
        if c !in before {
          assert c == RowCrop(rows[id], worlds).value;
        }
      }
      forall j | j in order && Selected(rows[j], owner) && rows[j].world in worlds
        ensures exists c :: c in result && c.id == j
      {
        if j != id {
          assert j in front;
          var c :| c in before && c.id == j;
          assert c in result;
        } else {
          var c := RowCrop(rows[id], worlds).value;
          assert c in result;
        }
      }
    }
  }

  /** An all-or-nothing group of statements: the two tables together. */
  datatype Tables = Tables(players: map<Uuid, PlayerRow>, crops: map<Uuid, CropRow>)

  /** The statements a batch is made of, at the level of rows. */
  datatype BatchOp =
    | PutPlayer(playerRow: PlayerRow)
    | DeletePlayerRow(uuid: Uuid)
    | PutCrop(cropRow: CropRow)
    | DeleteCropRow(id: Uuid)
    | SetCropStatus(cropId: Uuid, harvested: bool, decayed: bool)

  function ApplyOp(t: Tables, op: BatchOp): Tables
  {
    match op
      case PutPlayer(row) => t.(players := t.players[row.uuid := row])
      case DeletePlayerRow(uuid) => t.(players := t.players - {uuid})
      case PutCrop(row) => t.(crops := t.crops[row.id := row])
      case DeleteCropRow(id) => t.(crops := t.crops - {id})
      case SetCropStatus(id, h, d) =>
        if id in t.crops then t.(crops := t.crops[id := t.crops[id].(harvested := h, decayed := d)]) else t
  }

  /** The tables after running the statements in order. */
  function ApplyAll(t: Tables, ops: seq<BatchOp>): Tables
  {
    if |ops| == 0 then t else ApplyOp(ApplyAll(t, ops[..|ops| - 1]), ops[|ops| - 1])
  }

  /** Running two batches one after the other is running their
      concatenation. */
  lemma {:induction false} ApplyAllConcat(t: Tables, ops1: seq<BatchOp>, ops2: seq<BatchOp>)
    ensures ApplyAll(t, ops1 + ops2) == ApplyAll(ApplyAll(t, ops1), ops2)
  {
    if |ops2| == 0 {
      assert ops1 + ops2 == ops1;
    } else {
      ApplyAllConcat(t, ops1, ops2[..|ops2| - 1]);
      assert (ops1 + ops2)[..|ops1 + ops2| - 1] == ops1 + ops2[..|ops2| - 1];
    }
  }

  /** Each statement keeps every row under its own key. */
  lemma {:induction false} ApplyAllKeyed(t: Tables, ops: seq<BatchOp>)
    requires Keyed(t.crops)
    ensures Keyed(ApplyAll(t, ops).crops)
  {
    if |ops| > 0 {
      ApplyAllKeyed(t, ops[..|ops| - 1]);
    }
  }

  /** The engine's row order: every key of the table exactly once. */
  predicate ListsEachOnce<V>(order: seq<Uuid>, rows: map<Uuid, V>)
  {
    (forall i :: 0 <= i < |order| ==> order[i] in rows) &&
    (forall u :: u in rows ==> u in order) &&
    (forall i, j :: 0 <= i < j < |order| ==> order[i] != order[j])
  }

  /** The rows a result set yields before it stops: all of them, or those
      read before an error. */
  function ReadPrefix(order: seq<Uuid>, rowsRead: nat): (r: seq<Uuid>)
    ensures |r| == Min(rowsRead, |order|) && r == order[..|r|]
    ensures rowsRead >= |order| ==> r == order
  {
    order[..Min(rowsRead, |order|)]
  }

  /** The crops hold the records, one for one and in order. */
  ghost predicate HoldRecords(crops: seq<Crop>, records: seq<CropRecord>)
    reads set c | c in crops
  {
    |crops| == |records| && forall k :: 0 <= k < |crops| ==> crops[k].Record() == records[k]
  }

  /** A record that is held is held by some crop with its id. */
  lemma HeldById(crops: seq<Crop>, records: seq<CropRecord>, id: Uuid)
    requires HoldRecords(crops, records)
    requires exists c :: c in records && c.id == id
    ensures exists k :: 0 <= k < |crops| && crops[k].id == id
  {
    var c :| c in records && c.id == id;
    var k :| 0 <= k < |records| && records[k] == c;
    assert crops[k].Record() == c;
  }

  /** A complete crop query holds every selected row in a loaded world. */
  lemma SelectedAllHeld(crops: seq<Crop>, rows: map<Uuid, CropRow>, order: seq<Uuid>, worlds: set<string>,
                        owner: Option<Uuid>)
    requires Keyed(rows) && ListsEachOnce(order, rows)
    requires HoldRecords(crops, LoadableRecords(rows, order, worlds, owner))
    ensures forall id :: id in rows && Selected(rows[id], owner) && rows[id].world in worlds ==>
      exists k :: 0 <= k < |crops| && crops[k].id == id
  {
    LoadableExactly(rows, order, worlds, owner);
    forall id | id in rows && Selected(rows[id], owner) && rows[id].world in worlds
      ensures exists k :: 0 <= k < |crops| && crops[k].id == id
    {
      HeldById(crops, LoadableRecords(rows, order, worlds, owner), id);
    }
  }

  lemma HoldRecordsSnoc(crops: seq<Crop>, records: seq<CropRecord>, crop: Crop)
    requires HoldRecords(crops, records)
    ensures HoldRecords(crops + [crop], records + [crop.Record()])
  {
  }

  /** `createCropFromResultSet`: null when the row's world is not loaded,
      otherwise a new crop deserialized from the row. */
  method CropFromRow(row: CropRow, worlds: set<string>) returns (crop: Crop?)
    ensures crop == null <==> RowCrop(row, worlds).None?
    ensures crop != null ==> fresh(crop) && crop.Record() == RowCrop(row, worlds).value
  {
    if row.world !in worlds {
      return null;
    }
    crop := Deserialize(RowData(row));
  }

  /** One step of the result-set loop: the row's crop is appended when the
      query selects it and its world is loaded. */
  method AppendRow(crops: seq<Crop>, records: seq<CropRecord>, row: CropRow, worlds: set<string>,
                   owner: Option<Uuid>) returns (result: seq<Crop>)
    requires HoldRecords(crops, records)
    ensures HoldRecords(result, records + RowResult(row, worlds, owner))
    ensures |crops| <= |result| && forall k :: 0 <= k < |crops| ==> result[k] == crops[k]
    ensures forall k :: |crops| <= k < |result| ==> fresh(result[k])
  {
    result := crops;
    if !Selected(row, owner) {
      assert records + [] == records;
      return;
    }
    var crop := CropFromRow(row, worlds);
    if crop == null {
      assert records + [] == records;
      return;
    }
    HoldRecordsSnoc(crops, records, crop);
    result := crops + [crop];
  }

  lemma LoadableSnoc(rows: map<Uuid, CropRow>, order: seq<Uuid>, i: nat, worlds: set<string>, owner: Option<Uuid>)
    requires i < |order| && forall j :: 0 <= j < |order| ==> order[j] in rows
    ensures LoadableRecords(rows, order[..i + 1], worlds, owner) ==
      LoadableRecords(rows, order[..i], worlds, owner) + RowResult(rows[order[i]], worlds, owner)
  {
    assert order[..i + 1][..i] == order[..i];
  }

  /** The result-set loop of `loadAllCrops` and `loadPlayerCrops`: a new
      crop for each selected row, in `order`, skipping rows whose world is
      not loaded. */
  method SelectCrops(rows: map<Uuid, CropRow>, order: seq<Uuid>, worlds: set<string>, owner: Option<Uuid>)
    returns (crops: seq<Crop>)
    requires forall i :: 0 <= i < |order| ==> order[i] in rows
    ensures HoldRecords(crops, LoadableRecords(rows, order, worlds, owner))
    ensures forall i :: 0 <= i < |crops| ==> fresh(crops[i])
  {
    crops := [];
    for i := 0 to |order|
      invariant HoldRecords(crops, LoadableRecords(rows, order[..i], worlds, owner))
      invariant forall k :: 0 <= k < |crops| ==> fresh(crops[k])
    {
      LoadableSnoc(rows, order, i, worlds, owner);
      crops := AppendRow(crops, LoadableRecords(rows, order[..i], worlds, owner), rows[order[i]], worlds, owner);
    }
    assert order[..|order|] == order;
  }

  /** The setter calls of `loadPlayer`, in the source's order, on a new
      player whose plant limit is still the configured default. */
  method ApplyStoredRow(player: HerbalismPlayer, row: PlayerRow)
    requires player.uuid == row.uuid && player.maxPlants == player.config.maxTotalPlants
    modifies player`level, player`experience, player`totalPlants, player`maxPlants, player`totalHarvests,
      player`totalFertilizersUsed, player`totalCropsPlanted, player`totalPlayTime, player`firstJoined,
      player`lastSeen, player`activeCrops
    ensures PlayerRowOf(player) == LoadedRow(row, player.name, player.config)
  {
    player.SetLevel(row.level);
    player.SetExperience(row.experience);
    player.SetTotalPlants(row.totalPlants);
    player.SetMaxPlants(row.maxPlants);
    player.SetStatistics(row.totalHarvests, row.totalFertilizersUsed, row.totalCropsPlanted,
      row.totalPlayTime, row.firstJoined, row.lastSeen);
    player.SetActiveCrops(row.activeCrops);
  }

  class SqliteDatabase {
    var connected: bool
    var poolOpen: bool
    var playerRows: map<Uuid, PlayerRow>
    var cropRows: map<Uuid, CropRow>

    /** A store over a database file holding the given rows, not yet
        connected. */
    constructor (playerRows: map<Uuid, PlayerRow>, cropRows: map<Uuid, CropRow>)
      requires Keyed(cropRows)
      ensures !connected && !poolOpen
      ensures this.playerRows == playerRows && this.cropRows == cropRows
    {
      connected := false;
      poolOpen := false;
      this.playerRows := playerRows;
      this.cropRows := cropRows;
    }

    /** `isConnected`: the flag is set and the pool is open; `getConnection`
        throws otherwise. */
    predicate IsConnected()
      reads this`connected, this`poolOpen
    {
      connected && poolOpen
    }

    /** The connection is usable only while the pool is open. */
    lemma ConnectedOnlyWhileOpen()
      ensures IsConnected() ==> poolOpen
      ensures !poolOpen ==> !IsConnected()
    {
    }

    /** Every player row is stored under its own uuid, every crop row under
        its own id. */
    predicate Valid()
      reads this`playerRows, this`cropRows
    {
      (forall u :: u in playerRows ==> playerRows[u].uuid == u) && Keyed(cropRows)
    }

    /** `connect`: opening the pool either succeeds, setting the flag, or
        fails, clearing it. */
    method Connect(succeeds: bool) returns (ok: bool)
      modifies this`connected, this`poolOpen
      ensures ok == succeeds && connected == succeeds
      ensures poolOpen == (succeeds || old(poolOpen))
      ensures ok ==> IsConnected()
    {
      if succeeds {
        poolOpen := true;
        connected := true;
        return true;
      }
      connected := false;
      return false;
    }

    /** `disconnect`: an open pool is closed and the flag cleared; otherwise
        nothing changes. */
    method Disconnect()
      modifies this`connected, this`poolOpen
      ensures !IsConnected()
      ensures !poolOpen
      ensures connected == (old(connected) && !old(poolOpen))
    {
      if poolOpen {
        poolOpen := false;
        connected := false;
      }
    }

    /** `savePlayer`: INSERT OR REPLACE, so afterwards exactly one row holds
        the player's fields under its uuid. */
    method SavePlayer(player: HerbalismPlayer, fails: bool) returns (ok: bool)
      requires Valid()
      modifies this`playerRows
      ensures Valid()
      ensures ok <==> old(IsConnected()) && !fails
      ensures ok ==> playerRows == old(playerRows)[player.uuid := PlayerRowOf(player)]
      ensures !ok ==> playerRows == old(playerRows)
    {
      if !IsConnected() || fails {
        return false;
      }
      playerRows := playerRows[player.uuid := PlayerRowOf(player)];
      return true;
    }

    /** `loadPlayer`: a new player, whose fields are the stored ones passed
        through the setters when the row exists, and the defaults when it
        does not or the query fails. The stored name is not read. */
    method LoadPlayer(uuid: Uuid, name: string, config: PlayerConfig, now: int, fails: bool)
      returns (player: HerbalismPlayer)
      requires Valid()
      ensures fresh(player)
      ensures player.config == config
      ensures player.abilities == map[] && player.fertilizerCooldowns == map[] && player.activeEffects == map[]
      ensures IsConnected() && !fails && uuid in playerRows ==>
        PlayerRowOf(player) == LoadedRow(playerRows[uuid], name, config)
      ensures !(IsConnected() && !fails && uuid in playerRows) ==>
        PlayerRowOf(player) == DefaultRow(uuid, name, config, now)
    {
      player := new HerbalismPlayer(uuid, name, config, now);
      if !IsConnected() || fails || uuid !in playerRows {
        return;
      }
      ApplyStoredRow(player, playerRows[uuid]);
    }

    /** `playerExists`. */
    method PlayerExists(uuid: Uuid, fails: bool) returns (b: bool)
      ensures b <==> IsConnected() && !fails && uuid in playerRows
    {
      return IsConnected() && !fails && uuid in playerRows;
    }

    /** `deletePlayer`: true exactly when a row was deleted. */
    method DeletePlayer(uuid: Uuid, fails: bool) returns (ok: bool)
      requires Valid()
      modifies this`playerRows
      ensures Valid()
      ensures ok <==> old(IsConnected()) && !fails && uuid in old(playerRows)
      ensures playerRows == if old(IsConnected()) && !fails then old(playerRows) - {uuid} else old(playerRows)
      ensures uuid !in playerRows || !ok
    {
      if !IsConnected() || fails {
        return false;
      }
      ok := uuid in playerRows;
      playerRows := playerRows - {uuid};
    }

    /** `getAllPlayers`: the loaded form of each row, in the engine's order
        `order`, which lists each uuid once by level and then experience,
        both descending. An error part-way through the result set (after
        `rowsRead` rows) leaves the players read so far. */
    method GetAllPlayers(order: seq<Uuid>, config: PlayerConfig, rowsRead: nat) returns (players: seq<PlayerRow>)
      requires ListsEachOnce(order, playerRows)
      requires forall i, j :: 0 <= i < j < |order| ==>
        playerRows[order[i]].level > playerRows[order[j]].level ||
        (playerRows[order[i]].level == playerRows[order[j]].level &&
         playerRows[order[i]].experience >= playerRows[order[j]].experience)
      ensures !IsConnected() ==> players == []
      ensures IsConnected() ==> (|players| == Min(rowsRead, |order|) &&
        forall i :: 0 <= i < |players| ==>
          players[i] == LoadedRow(playerRows[order[i]], playerRows[order[i]].name, config))
      ensures IsConnected() && rowsRead >= |order| ==> forall u :: u in playerRows ==>
        exists i :: 0 <= i < |players| && order[i] == u && players[i] == LoadedRow(playerRows[u], playerRows[u].name, config)
      ensures forall i, j :: 0 <= i < j < |players| ==> players[i].level >= players[j].level
    {
      players := [];
      if !IsConnected() {
        return;
      }
      for i := 0 to Min(rowsRead, |order|)
        invariant |players| == i
        invariant forall k :: 0 <= k < i ==>
          players[k] == LoadedRow(playerRows[order[k]], playerRows[order[k]].name, config)
      {
        var row := playerRows[order[i]];
        players := players + [LoadedRow(row, row.name, config)];
      }
      if rowsRead >= |order| {
        forall u | u in playerRows
          ensures exists i :: (0 <= i < |players| && order[i] == u &&
            players[i] == LoadedRow(playerRows[u], playerRows[u].name, config))
        {
          var i :| 0 <= i < |order| && order[i] == u;
          assert players[i] == LoadedRow(playerRows[order[i]], playerRows[order[i]].name, config);
        }
      }
    }

    /** `updatePlayerStats`: the four columns of an existing row; true
        exactly when one matched. */
    method UpdatePlayerStats(uuid: Uuid, experience: int, level: int, harvests: int, fertilizersUsed: int,
                             fails: bool) returns (ok: bool)
      requires Valid()
      modifies this`playerRows
      ensures Valid()
      ensures ok <==> old(IsConnected()) && !fails && uuid in old(playerRows)
      ensures ok ==> playerRows == old(playerRows)[uuid := old(playerRows)[uuid].(experience := experience,
        level := level, totalHarvests := harvests, totalFertilizersUsed := fertilizersUsed)]
      ensures !ok ==> playerRows == old(playerRows)
    {
      if !IsConnected() || fails || uuid !in playerRows {
        return false;
      }
      playerRows := playerRows[uuid := playerRows[uuid].(experience := experience, level := level,
        totalHarvests := harvests, totalFertilizersUsed := fertilizersUsed)];
      return true;
    }

    /** `saveCrop`: INSERT OR REPLACE of the crop's row. */
    method SaveCrop(crop: Crop, fails: bool) returns (ok: bool)
      requires Valid()
      modifies this`cropRows
      ensures Valid()
      ensures ok <==> old(IsConnected()) && !fails
      ensures ok ==> cropRows == old(cropRows)[crop.id := CropRowOf(crop.Record())]
      ensures !ok ==> cropRows == old(cropRows)
    {
      if !IsConnected() || fails {
        return false;
      }
      cropRows := cropRows[crop.id := CropRowOf(crop.Record())];
      return true;
    }

    /** `loadCrop`: the crop of an existing row in a loaded world, or null. */
    method LoadCrop(cropId: Uuid, worlds: set<string>, fails: bool) returns (crop: Crop?)
      ensures !(IsConnected() && !fails && cropId in cropRows) ==> crop == null
      ensures IsConnected() && !fails && cropId in cropRows ==>
        (crop == null <==> RowCrop(cropRows[cropId], worlds).None?) &&
        (crop != null ==> fresh(crop) && crop.Record() == RowCrop(cropRows[cropId], worlds).value)
    {
      if !IsConnected() || fails || cropId !in cropRows {
        return null;
      }
      crop := CropFromRow(cropRows[cropId], worlds);
    }

    /** `loadAllCrops`: every unharvested crop in a loaded world, visiting
        the rows in the engine's order `order`. An error part-way through the
        result set (after `rowsRead` rows) leaves the crops read so far. */
    method LoadAllCrops(order: seq<Uuid>, worlds: set<string>, rowsRead: nat) returns (crops: seq<Crop>)
      requires Valid() && ListsEachOnce(order, cropRows)
      ensures !IsConnected() ==> crops == []
      ensures IsConnected() ==> HoldRecords(crops, LoadableRecords(cropRows, ReadPrefix(order, rowsRead), worlds, None))
      ensures IsConnected() && rowsRead >= |order| ==> forall id ::
        id in cropRows && Selected(cropRows[id], None) && cropRows[id].world in worlds ==>
        exists k :: 0 <= k < |crops| && crops[k].id == id
      ensures forall i :: 0 <= i < |crops| ==> fresh(crops[i])
    {
      if !IsConnected() {
        return [];
      }
      crops := SelectCrops(cropRows, ReadPrefix(order, rowsRead), worlds, None);
      if rowsRead >= |order| {
        SelectedAllHeld(crops, cropRows, order, worlds, None);
      }
    }

    /** `loadPlayerCrops`: as `loadAllCrops`, restricted to one owner. */
    method LoadPlayerCrops(playerId: Uuid, order: seq<Uuid>, worlds: set<string>, rowsRead: nat)
      returns (crops: seq<Crop>)
      requires Valid() && ListsEachOnce(order, cropRows)
      ensures !IsConnected() ==> crops == []
      ensures IsConnected() ==>
        HoldRecords(crops, LoadableRecords(cropRows, ReadPrefix(order, rowsRead), worlds, Some(playerId)))
      ensures IsConnected() && rowsRead >= |order| ==> forall id ::
        id in cropRows && Selected(cropRows[id], Some(playerId)) && cropRows[id].world in worlds ==>
        exists k :: 0 <= k < |crops| && crops[k].id == id
      ensures forall i :: 0 <= i < |crops| ==> fresh(crops[i])
    {
      if !IsConnected() {
        return [];
      }
      crops := SelectCrops(cropRows, ReadPrefix(order, rowsRead), worlds, Some(playerId));
      if rowsRead >= |order| {
        SelectedAllHeld(crops, cropRows, order, worlds, Some(playerId));
      }
    }

    /** `deleteCrop`: true exactly when a row was deleted. */
    method DeleteCrop(cropId: Uuid, fails: bool) returns (ok: bool)
      requires Valid()
      modifies this`cropRows
      ensures Valid()
      ensures ok <==> old(IsConnected()) && !fails && cropId in old(cropRows)
      ensures cropRows == if old(IsConnected()) && !fails then old(cropRows) - {cropId} else old(cropRows)
    {
      if !IsConnected() || fails {
        return false;
      }
      ok := cropId in cropRows;
      cropRows := cropRows - {cropId};
    }

    /** `deletePlayerCrops`: every row of that owner goes; true exactly when
        there was one. */
    method DeletePlayerCrops(playerId: Uuid, fails: bool) returns (ok: bool)
      requires Valid()
      modifies this`cropRows
      ensures Valid()
      ensures ok <==> old(IsConnected()) && !fails && exists id :: id in old(cropRows) && old(cropRows)[id].ownerId == playerId
      ensures old(IsConnected()) && !fails ==>
        cropRows == map id | id in old(cropRows) && old(cropRows)[id].ownerId != playerId :: old(cropRows)[id]
      ensures !(old(IsConnected()) && !fails) ==> cropRows == old(cropRows)
    {
      if !IsConnected() || fails {
        return false;
      }
      ok := exists id :: id in cropRows && cropRows[id].ownerId == playerId;
      cropRows := map id | id in cropRows && cropRows[id].ownerId != playerId :: cropRows[id];
    }

    /** `updateCropStatus`: both flags of an existing row; true exactly when
        one matched. */
    method UpdateCropStatus(cropId: Uuid, harvested: bool, decayed: bool, fails: bool) returns (ok: bool)
      requires Valid()
      modifies this`cropRows
      ensures Valid()
      ensures ok <==> old(IsConnected()) && !fails && cropId in old(cropRows)
      ensures ok ==> (Tables(playerRows, cropRows) ==
        ApplyOp(Tables(playerRows, old(cropRows)), SetCropStatus(cropId, harvested, decayed)))
      ensures !ok ==> cropRows == old(cropRows)
    {
      if !IsConnected() || fails || cropId !in cropRows {
        return false;
      }
      cropRows := cropRows[cropId := cropRows[cropId].(harvested := harvested, decayed := decayed)];
      return true;
    }

    /** `executeBatch`: the statements run in one transaction, committed
        only when none throws; `failsAt` is the first one that does. */
    method ExecuteBatch(ops: seq<BatchOp>, failsAt: Option<nat>) returns (ok: bool)
      requires Valid()
      modifies this`playerRows, this`cropRows
      ensures ok <==> old(IsConnected()) && (failsAt.None? || failsAt.value >= |ops|)
      ensures ok ==> Tables(playerRows, cropRows) == ApplyAll(Tables(old(playerRows), old(cropRows)), ops)
      ensures !ok ==> playerRows == old(playerRows) && cropRows == old(cropRows)
    {
      if !IsConnected() {
        return false;
      }
      var t := Tables(playerRows, cropRows);
      for i := 0 to |ops|
        invariant t == ApplyAll(Tables(playerRows, cropRows), ops[..i])
        invariant failsAt.Some? ==> failsAt.value >= i
      {
        if failsAt == Some(i) {
          return false;
        }
        assert ops[..i + 1][..i] == ops[..i];
        t := ApplyOp(t, ops[i]);
      }
      assert ops[..|ops|] == ops;
      playerRows, cropRows := t.players, t.crops;
      return true;
    }
  }
}
