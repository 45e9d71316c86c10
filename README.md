# Herbalism in Dafny

A verified model of the core of Herbalism, a Minecraft server plugin in
which players plant custom crops on farmland, wait for them to grow,
harvest them for experience, speed them up with fertilizers, and level up
to unlock abilities. The model covers:

- the crop lifecycle: the `Crop` entity, the `CropManager` registry, and
  its plant, harvest, break and decay-sweep operations over three indices;
- player progression: the `HerbalismPlayer` clamped setters, the level-up
  loop, the cooldown and effect maps, and the `PlayerManager` registry with
  periodic saves and top-N rankings;
- abilities (`Ability`, `AbilityManager`), fertilizer effects
  (`FertilizerManager`) and the menu cooldown (`GuiManager`);
- persistence: the `DatabaseManager` cache with its pending-write sets, in
  front of the `SQLiteDatabase` store, whose tables are modelled as maps
  from key to row;
- the text utilities: `TimeUtil` formatting, parsing and progress bars, the
  `LanguageManager` message flattening and placeholder substitution, and
  the `/herbalism` tab completer.

Each source class whose fields change in place is a Dafny `class` whose
methods state the whole new state. Pure queries and the values around them
are functions and datatypes. Two kinds of input are parameters:

- anything the plugin gets from the server: the current time in
  milliseconds, random rolls, permissions, block types, loaded worlds,
  online player names, the crop and fertilizer configuration, and fresh
  UUIDs;
- anything the store reports: whether a write fails, and the order of
  result rows.

Java `long` casts of doubles truncate toward zero (`JavaNum.TruncToInt`).
Integer division of possibly negative values follows Java (`JavaNum.JavaDiv`).
The module layout follows the source: one module per core class, plus
`Wrappers`, `JavaNum`, `Text` and `Ids` for the Java library behaviour the
core relies on.

`saveAllPendingData` clears both pending sets once
all writes have completed, whether or not each write succeeded
(`src/main/java/me/devupdates/herbalism/manager/DatabaseManager.java:327-331`).
A failed write is therefore not retried by the next flush, and
`Persistence.DatabaseManager.SaveAllPendingData` states exactly that.

## Model

| member | source | states |
|---|---|---|
| Crops.Crop.constructor | src/main/java/me/devupdates/herbalism/crop/Crop.java:31-43 | a new crop is neither harvested nor decayed, has no fertilizers and modifier 1.0, and its harvest time is the plant time plus the duration in milliseconds |
| Crops.Crop.FromRecord | src/main/java/me/devupdates/herbalism/crop/Crop.java:246-307 | the crop `deserialize` builds carries exactly the decoded state |
| Crops.Crop.SetHarvestTime | src/main/java/me/devupdates/herbalism/crop/Crop.java:77-79 | the harvest time takes the given value |
| Crops.Crop.SetHarvested | src/main/java/me/devupdates/herbalism/crop/Crop.java:85-87 | the harvested flag takes the given value |
| Crops.Crop.SetDecayed | src/main/java/me/devupdates/herbalism/crop/Crop.java:93-95 | the decayed flag takes the given value |
| Crops.Crop.SetGrowthModifier | src/main/java/me/devupdates/herbalism/crop/Crop.java:312-314 | the growth modifier takes the given value |
| Crops.Crop.FertilizedBySet | src/main/java/me/devupdates/herbalism/crop/Crop.java:97-99 | the set of fertilizing players holds exactly the ids recorded |
| Crops.Crop.FertilizedByMatchesSet | src/main/java/me/devupdates/herbalism/crop/Crop.java:97-103 | `hasFertilizedBy` holds exactly for the ids in the set `getFertilizedBy` returns |
| Crops.Crop.AddFertilizedBy | src/main/java/me/devupdates/herbalism/crop/Crop.java:105-107 | the id joins the fertilizer set once, so the crop then has it; a repeat leaves the set as it was, and no other id joins or leaves |
| Crops.Crop.DecayTime | src/main/java/me/devupdates/herbalism/crop/Crop.java:113-121 | with non-negative duration and multiplier the decay moment is never before the harvest time |
| Crops.Crop.DecayImpliesReady | src/main/java/me/devupdates/herbalism/crop/Crop.java:109-121 | with non-negative duration and multiplier a crop due to decay is also ready for harvest |
| Crops.Crop.ReadinessPersists | src/main/java/me/devupdates/herbalism/crop/Crop.java:109-121 | a crop ready for harvest, or due to decay, stays so at every later time; a harvested or decayed crop is neither |
| Crops.Crop.TimeUntilHarvest | src/main/java/me/devupdates/herbalism/crop/Crop.java:123-126 | zero exactly when a growing crop is ready; for a harvest time still in the future, exactly the milliseconds left to it; zero once that moment has passed; never negative |
| Crops.Crop.TimeUntilDecay | src/main/java/me/devupdates/herbalism/crop/Crop.java:128-136 | zero exactly when a growing crop's decay moment has come; for a decay moment still in the future, exactly the milliseconds left to it; zero once it has passed; never negative |
| Crops.Crop.Fertilize | src/main/java/me/devupdates/herbalism/crop/Crop.java:178-183 | a player already recorded changes nothing; otherwise the player is recorded and the harvest time drops by the reduction but never below the plant time |
| Crops.Crop.OwnerIsUnique | src/main/java/me/devupdates/herbalism/crop/Crop.java:174-176 | `isOwner` holds exactly for the owner's id and never for null |
| Crops.Crop.PercentReduction | src/main/java/me/devupdates/herbalism/crop/Crop.java:185-191 | the percentage reduction lies between 0 and the original duration for a percentage in [0, 100] |
| Crops.Crop.FertilizePercent | src/main/java/me/devupdates/herbalism/crop/Crop.java:185-191 | as `Fertilize`, with the reduction taken as a percentage of the original duration |
| Crops.Crop.UpdateBlockState | src/main/java/me/devupdates/herbalism/crop/Crop.java:193-216 | a growing crop whose block is gone becomes decayed; nothing else changes the flag |
| Crops.Crop.Serialize | src/main/java/me/devupdates/herbalism/crop/Crop.java:225-243 | the map holds every field of the crop under its key |
| Crops.PercentBounds | src/main/java/me/devupdates/herbalism/crop/Crop.java:185-191 | a percentage in [0, 100] of a non-negative duration, cast to long, lies in [0, duration] |
| Crops.EqualsAgreesWithHash | src/main/java/me/devupdates/herbalism/crop/Crop.java:324-334 | `equals` compares ids only, is an equivalence, and equal crops hash equally |
| Crops.Encode | src/main/java/me/devupdates/herbalism/crop/Crop.java:225-243 | the serialized map has exactly the fifteen keys `serialize` writes |
| Crops.AddAllFertilizers | src/main/java/me/devupdates/herbalism/crop/Crop.java:289-296 | adding the stored ids one by one keeps them distinct, and the loop gets through the whole list exactly when every entry is UUID text |
| Crops.Decode | src/main/java/me/devupdates/herbalism/crop/Crop.java:246-307 | a map decodes exactly when its identity, coordinate and time entries have the right kinds; the crop keeps the fertilizers added before any bad entry, and when that loop throws the modifier stays 1.0 |
| Crops.Deserialize | src/main/java/me/devupdates/herbalism/crop/Crop.java:246-307 | null exactly when decoding fails, otherwise a fresh crop holding the decoded state |
| Crops.AddAllDistinct | src/main/java/me/devupdates/herbalism/crop/Crop.java:289-296 | a list of distinct ids is added whole, in order |
| Crops.RoundTripIdentity | src/main/java/me/devupdates/herbalism/crop/Crop.java:225-307 | identity fields survive serialize then deserialize |
| Crops.RoundTripCoordinates | src/main/java/me/devupdates/herbalism/crop/Crop.java:225-307 | block coordinates survive serialize then deserialize |
| Crops.RoundTripTimes | src/main/java/me/devupdates/herbalism/crop/Crop.java:225-307 | times and flags survive serialize then deserialize |
| Crops.RoundTripFertilizers | src/main/java/me/devupdates/herbalism/crop/Crop.java:225-307 | a repeat-free fertilizer list survives serialize then deserialize |
| Crops.SerializeRoundTrip | src/main/java/me/devupdates/herbalism/crop/Crop.java:225-307 | deserialize(serialize(c)) rebuilds every field of c |
| CropRegistry.PlantedDuration | src/main/java/me/devupdates/herbalism/manager/CropManager.java:144-148 | the duration is the base one, scaled and cast to long only when the green-thumb value is positive |
| CropRegistry.GreenThumbShortens | src/main/java/me/devupdates/herbalism/manager/CropManager.java:144-148 | a green-thumb value in (0, 1] never lengthens growth nor makes it negative |
| CropRegistry.CropManager.CountMatchesCrops | src/main/java/me/devupdates/herbalism/manager/CropManager.java:351-364 | under the registry invariant the count equals the number of crops `getPlayerCrops` returns |
| CropRegistry.PlantKeeps | src/main/java/me/devupdates/herbalism/manager/CropManager.java:158-163 | filing a fresh crop at a free location keeps the three indices consistent |
| CropRegistry.RetireKeeps | src/main/java/me/devupdates/herbalism/manager/CropManager.java:225-240 | harvesting a non-sustainable crop keeps the indices consistent with the crop no longer growing |
| CropRegistry.ReplantKeeps | src/main/java/me/devupdates/herbalism/manager/CropManager.java:206-224 | the sustainable replant keeps the indices consistent |
| CropRegistry.RemoveKeeps | src/main/java/me/devupdates/herbalism/manager/CropManager.java:303-319 | removing a growing crop from every index keeps them consistent |
| CropRegistry.CountsStep | src/main/java/me/devupdates/herbalism/manager/CropManager.java:312-316 | lowering owners' counts one removed crop at a time gives the counts stated for the whole set |
| CropRegistry.SweptFlags | src/main/java/me/devupdates/herbalism/manager/CropManager.java:321-337 | after the sweep each visited crop is decayed exactly when it was due or its block was air, and unvisited crops keep their flag |
| CropRegistry.CropManager.Growing | src/main/java/me/devupdates/herbalism/manager/CropManager.java:206-240 | the growing ids are exactly the crops not yet harvested |
| CropRegistry.CropManager.constructor | src/main/java/me/devupdates/herbalism/manager/CropManager.java:26-30 | an empty registry that satisfies the invariant |
| CropRegistry.CropManager.PlantCrop | src/main/java/me/devupdates/herbalism/manager/CropManager.java:95-173 | succeeds exactly when the player may plant that type, the location is free and the block is farmland; a failure changes nothing; success files the crop and raises the planter's counters |
| CropRegistry.CropManager.CanPlantCropMonotone | src/main/java/me/devupdates/herbalism/manager/CropManager.java:95-118 | more permissions never forbid planting; a permitted plant needs a loaded player below the plant limit; a missing type permission forbids it |
| CropRegistry.CropManager.PlantAt | src/main/java/me/devupdates/herbalism/manager/CropManager.java:150-166 | a new crop growing for the given duration (the green-thumb scaled one `PlantCrop` computes) is filed in all three indices, nothing else in them changes, and the planter's planted and active counts go up by one |
| CropRegistry.CropManager.Register | src/main/java/me/devupdates/herbalism/manager/CropManager.java:158-163 | the crop is added to all three indices and nothing else changes |
| CropRegistry.CropManager.HarvestCrop | src/main/java/me/devupdates/herbalism/manager/CropManager.java:175-191 | fails without any change when there is no crop, the caller is not the owner or it is not ready; otherwise harvests as `PerformHarvest` |
| CropRegistry.CropManager.PerformHarvest | src/main/java/me/devupdates/herbalism/manager/CropManager.java:193-257 | the crop is flagged and stays in `crops`; it is replanted or retired by type; the harvester gains one harvest and a tenth of the base duration as experience |
| CropRegistry.CropManager.HarvestIndices | src/main/java/me/devupdates/herbalism/manager/CropManager.java:206-240 | a sustainable crop is replaced at its place by a fresh one with the base duration; otherwise its location and owner entry go and the owner's active count drops |
| CropRegistry.CropManager.Replant | src/main/java/me/devupdates/herbalism/manager/CropManager.java:212-224 | the new crop with the base duration takes the old one's location and owner-set entry |
| CropRegistry.CropManager.Retire | src/main/java/me/devupdates/herbalism/manager/CropManager.java:225-240 | the location and owner-set entry go and the owner's active count drops by one, never below zero |
| CropRegistry.CropManager.BreakCrop | src/main/java/me/devupdates/herbalism/manager/CropManager.java:289-301 | fails without change when there is no crop or the caller is neither owner nor admin; otherwise removes the crop as `RemoveCrop` |
| CropRegistry.CropManager.RemoveCrop | src/main/java/me/devupdates/herbalism/manager/CropManager.java:303-319 | the crop leaves all three indices and the owner's active count drops by one, never below zero |
| CropRegistry.CropManager.Unfile | src/main/java/me/devupdates/herbalism/manager/CropManager.java:304-310 | the crop leaves all three indices |
| CropRegistry.CropManager.DebitOwner | src/main/java/me/devupdates/herbalism/manager/CropManager.java:312-316 | only a loaded owner's active count changes, by one, never below zero |
| CropRegistry.CropManager.DecayingIds | src/main/java/me/devupdates/herbalism/manager/CropManager.java:327 | the ids of the crops whose decay moment has come |
| CropRegistry.CropManager.SweepOne | src/main/java/me/devupdates/herbalism/manager/CropManager.java:323-336 | one crop of the sweep: removed exactly when due to decay, otherwise its block state refreshed |
| CropRegistry.CropManager.DecayOne | src/main/java/me/devupdates/herbalism/manager/CropManager.java:327-331 | the crop is marked decayed and removed as by `removeCrop` |
| CropRegistry.CropManager.RefreshOne | src/main/java/me/devupdates/herbalism/manager/CropManager.java:335 | the crop's decayed flag follows `updateBlockState` |
| CropRegistry.CropManager.UpdateCrops | src/main/java/me/devupdates/herbalism/manager/CropManager.java:321-337 | exactly the crops due to decay leave every index; every crop's decayed flag becomes what the sweep sets (due, or its block gone while still growing); each owner's active count drops once per removed crop |
| CropRegistry.CropManager.SweepAll | src/main/java/me/devupdates/herbalism/manager/CropManager.java:322-336 | visiting every id once leaves the state the whole sweep promises |
| CropRegistry.CropManager.GetCrop | src/main/java/me/devupdates/herbalism/manager/CropManager.java:339-341 | the crop filed under the id, or null |
| CropRegistry.CropManager.GetCropAtLocation | src/main/java/me/devupdates/herbalism/manager/CropManager.java:343-345 | the growing crop at the location, or null |
| CropRegistry.CropManager.GetPlayerCrops | src/main/java/me/devupdates/herbalism/manager/CropManager.java:351-359 | exactly the owner's ids still in `crops`, all owned by that player |
| CropRegistry.CropManager.GetPlayerCropCount | src/main/java/me/devupdates/herbalism/manager/CropManager.java:361-364 | the size of the owner's id set, 0 without one |
| CropRegistry.CropManager.Shutdown | src/main/java/me/devupdates/herbalism/manager/CropManager.java:376-383 | all three indices are empty and the invariant holds |
| Players.ExperienceRequired | src/main/java/me/devupdates/herbalism/player/HerbalismPlayer.java:96-103 | within one of a*level^2 + b*level + c, as the long cast of that double |
| Players.LevelReachedStops | src/main/java/me/devupdates/herbalism/player/HerbalismPlayer.java:123-142 | the loop never lowers the level, climbs at most to the maximum, and stops where the next level is not affordable |
| Players.LevelReachedEarned | src/main/java/me/devupdates/herbalism/player/HerbalismPlayer.java:123-142 | every level climbed was paid for by the experience held |
| Players.LevelReachedMonotone | src/main/java/me/devupdates/herbalism/player/HerbalismPlayer.java:123-142 | more experience never yields a lower level |
| Players.DropExpired | src/main/java/me/devupdates/herbalism/player/HerbalismPlayer.java:251-260 | a query drops the entry exactly when it has expired and keeps every other entry |
| Players.RemainingSeconds | src/main/java/me/devupdates/herbalism/player/HerbalismPlayer.java:267-272 | whole seconds left, never negative, zero without an entry |
| Players.DropExpiredKeepsActive | src/main/java/me/devupdates/herbalism/player/HerbalismPlayer.java:251-260 | dropping expired entries never changes which entries are active then or later |
| Players.HerbalismPlayer.constructor | src/main/java/me/devupdates/herbalism/player/HerbalismPlayer.java:43-57 | a level-1 player with no experience, the configured plant limits and both times at now |
| Players.HerbalismPlayer.SetLevel | src/main/java/me/devupdates/herbalism/player/HerbalismPlayer.java:71-73 | the level becomes the input clamped to [1, maxLevel]: the input itself when in range, maxLevel above it; only the level field may change |
| Players.HerbalismPlayer.SetExperience | src/main/java/me/devupdates/herbalism/player/HerbalismPlayer.java:79-81 | experience never becomes negative |
| Players.HerbalismPlayer.AddExperience | src/main/java/me/devupdates/herbalism/player/HerbalismPlayer.java:83-86 | experience grows by the amount and the level becomes the level `checkLevelUp` reaches from there, so it only climbs and no further level-up is possible; only these two fields may change |
| Players.HerbalismPlayer.RemoveExperience | src/main/java/me/devupdates/herbalism/player/HerbalismPlayer.java:88-90 | experience falls by the amount but not below zero |
| Players.HerbalismPlayer.ExperienceToNextLevel | src/main/java/me/devupdates/herbalism/player/HerbalismPlayer.java:105-107 | the experience missing for the next level, zero exactly when it is reached |
| Players.HerbalismPlayer.LevelUpNeedsExperience | src/main/java/me/devupdates/herbalism/player/HerbalismPlayer.java:105-121 | a level-up is possible exactly below the maximum level with no experience missing, and then `checkLevelUp` climbs at least one level |
| Players.HerbalismPlayer.CheckLevelUp | src/main/java/me/devupdates/herbalism/player/HerbalismPlayer.java:123-142 | the level becomes the one the loop reaches, never lower, and no further level-up is possible |
| Players.HerbalismPlayer.SetTotalPlants | src/main/java/me/devupdates/herbalism/player/HerbalismPlayer.java:148-150 | the plant limit is clamped to [0, maxPlants] |
| Players.HerbalismPlayer.SetMaxPlants | src/main/java/me/devupdates/herbalism/player/HerbalismPlayer.java:156-158 | the maximum is at least 1 |
| Players.HerbalismPlayer.SetActiveCrops | src/main/java/me/devupdates/herbalism/player/HerbalismPlayer.java:164-166 | the active count is never negative |
| Players.HerbalismPlayer.PlantLimit | src/main/java/me/devupdates/herbalism/player/HerbalismPlayer.java:168-170 | no more planting once the active count reaches the plant limit; a permitted plant stays within it |
| Players.HerbalismPlayer.AddHarvest | src/main/java/me/devupdates/herbalism/player/HerbalismPlayer.java:176-178 | one more harvest |
| Players.HerbalismPlayer.AddFertilizerUsed | src/main/java/me/devupdates/herbalism/player/HerbalismPlayer.java:184-186 | one more fertilizer used |
| Players.HerbalismPlayer.AddCropPlanted | src/main/java/me/devupdates/herbalism/player/HerbalismPlayer.java:192-194 | one more crop planted |
| Players.HerbalismPlayer.AddPlayTime | src/main/java/me/devupdates/herbalism/player/HerbalismPlayer.java:200-202 | play time grows by the amount |
| Players.HerbalismPlayer.SetStatistics | src/main/java/me/devupdates/herbalism/player/HerbalismPlayer.java:372-386 | the unclamped statistics setters store their values as given |
| Players.HerbalismPlayer.UpdateLastSeen | src/main/java/me/devupdates/herbalism/player/HerbalismPlayer.java:220-222 | last seen becomes now |
| Players.HerbalismPlayer.AbilityLevel | src/main/java/me/devupdates/herbalism/player/HerbalismPlayer.java:229-231 | the stored level, 0 for an ability not stored |
| Players.HerbalismPlayer.HasAbilityMeansLevel | src/main/java/me/devupdates/herbalism/player/HerbalismPlayer.java:229-243 | `hasAbility` holds exactly when `getAbilityLevel` is positive |
| Players.HerbalismPlayer.SetAbilityLevel | src/main/java/me/devupdates/herbalism/player/HerbalismPlayer.java:233-243 | a level <= 0 removes the ability, otherwise it is stored; `hasAbility` holds exactly for a positive level |
| Players.HerbalismPlayer.HasCooldown | src/main/java/me/devupdates/herbalism/player/HerbalismPlayer.java:251-260 | true exactly for an unexpired entry; an expired one is removed |
| Players.HerbalismPlayer.SetCooldown | src/main/java/me/devupdates/herbalism/player/HerbalismPlayer.java:262-265 | the entry ends the given number of seconds from now |
| Players.HerbalismPlayer.AddEffect | src/main/java/me/devupdates/herbalism/player/HerbalismPlayer.java:275-278 | the effect ends the given number of seconds from now |
| Players.HerbalismPlayer.HasEffect | src/main/java/me/devupdates/herbalism/player/HerbalismPlayer.java:280-289 | true exactly for an unexpired effect; an expired one is removed |
| PlayerRegistry.AfterPeriodicSave | src/main/java/me/devupdates/herbalism/manager/PlayerManager.java:247-259 | after a periodic save the saved players are those saved before plus every loaded player not yet saved |
| PlayerRegistry.PeriodicSaveSettles | src/main/java/me/devupdates/herbalism/manager/PlayerManager.java:247-259 | with a positive interval no player is due right after a periodic save, so a second one changes nothing |
| PlayerRegistry.SaveStep | src/main/java/me/devupdates/herbalism/manager/PlayerManager.java:250-258 | one more player processed by the periodic save |
| PlayerRegistry.Highest | src/main/java/me/devupdates/herbalism/manager/PlayerManager.java:217-242 | a player of the pool with the highest value of the metric |
| PlayerRegistry.PlayerManager.constructor | src/main/java/me/devupdates/herbalism/manager/PlayerManager.java:24-34 | an empty registry |
| PlayerRegistry.PlayerManager.GetPlayer | src/main/java/me/devupdates/herbalism/manager/PlayerManager.java:47-49 | exactly the registered entry, or null |
| PlayerRegistry.PlayerManager.LoadedPlayerIsKeyed | src/main/java/me/devupdates/herbalism/manager/PlayerManager.java:177-179 | a loaded uuid maps to a player carrying that uuid and the registry's configuration |
| PlayerRegistry.PlayerManager.GetPlayerByName | src/main/java/me/devupdates/herbalism/manager/PlayerManager.java:62-67 | a loaded player whose name matches ignoring case, or null only when none does |
| PlayerRegistry.PlayerManager.LoadPlayer | src/main/java/me/devupdates/herbalism/manager/PlayerManager.java:72-91 | a registered uuid returns the same object and changes nothing; otherwise a new player in exactly the constructor's default state (level 1, no experience, the configured plant limits, zero counters, empty maps, both times at now) is created and registered; either way the uuid is then loaded |
| PlayerRegistry.PlayerManager.SavePlayer | src/main/java/me/devupdates/herbalism/manager/PlayerManager.java:105-113 | null is ignored; otherwise that player's save time becomes now |
| PlayerRegistry.PlayerManager.SavePlayerById | src/main/java/me/devupdates/herbalism/manager/PlayerManager.java:118-123 | a loaded player is saved; an unknown uuid changes nothing |
| PlayerRegistry.PlayerManager.SaveAllPlayers | src/main/java/me/devupdates/herbalism/manager/PlayerManager.java:128-135 | every loaded player's save time becomes now and every other recorded save time stays |
| PlayerRegistry.PlayerManager.UnloadPlayer | src/main/java/me/devupdates/herbalism/manager/PlayerManager.java:140-149 | the uuid leaves both maps after its last-seen time is updated (the only field of the player that may change), so it is no longer loaded; an unknown uuid changes nothing |
| PlayerRegistry.PlayerManager.AddExperience | src/main/java/me/devupdates/herbalism/manager/PlayerManager.java:184-194 | a loaded player gains the experience and reaches the level `checkLevelUp` gives, and is saved only when the amount is at least 100; an unknown uuid changes nothing; no other player may change |
| PlayerRegistry.PlayerManager.SetLevel | src/main/java/me/devupdates/herbalism/manager/PlayerManager.java:206-212 | a loaded player's level becomes the input clamped to [1, maxLevel] and its save time is now; an unknown uuid changes nothing; the map of players is unchanged and no other player may change |
| PlayerRegistry.PlayerManager.TopPlayers | src/main/java/me/devupdates/herbalism/manager/PlayerManager.java:217-242 | at most `limit` distinct loaded players, non-increasing in the metric, none left out that beats one taken; a negative limit throws |
| PlayerRegistry.PlayerManager.PerformPeriodicSave | src/main/java/me/devupdates/herbalism/manager/PlayerManager.java:247-259 | exactly the loaded players with no save yet, or one at least the interval ago, are stamped now; the interval is computed in 32-bit int arithmetic, as in the source |
| PlayerRegistry.PlayerManager.SaveAllDue | src/main/java/me/devupdates/herbalism/manager/PlayerManager.java:250-258 | the loop over loaded players leaves the save times `AfterPeriodicSave` states |
| PlayerRegistry.PlayerManager.Shutdown | src/main/java/me/devupdates/herbalism/manager/PlayerManager.java:264-270 | after saving everyone both maps are empty |
| Abilities.ParseAbilityType | src/main/java/me/devupdates/herbalism/ability/Ability.java:24 | each of the four type names is recognised ignoring case; any other name is the exception `valueOf` throws |
| Abilities.Collected | src/main/java/me/devupdates/herbalism/ability/Ability.java:31-45 | exactly the entries with an integer key and a section are collected, in order |
| Abilities.InsertByLevel | src/main/java/me/devupdates/herbalism/ability/Ability.java:48 | inserting keeps the same elements plus the new one |
| Abilities.InsertKeepsSorted | src/main/java/me/devupdates/herbalism/ability/Ability.java:48 | inserting into a sorted list keeps it sorted |
| Abilities.SortByLevel | src/main/java/me/devupdates/herbalism/ability/Ability.java:48 | the sorted list is a permutation of the input, ascending by level number |
| Abilities.SortByLevelStable | src/main/java/me/devupdates/herbalism/ability/Ability.java:48 | the sort is stable: for every level number, the entries with that number keep their configuration order |
| Abilities.GetLevel | src/main/java/me/devupdates/herbalism/ability/Ability.java:90-97 | the first configured entry with that number, null exactly when there is none |
| Abilities.Ability.EffectValue | src/main/java/me/devupdates/herbalism/ability/Ability.java:123-126 | 0.0 for a level not configured; otherwise the effect value of the first configured entry with that number |
| Abilities.Ability.Chance | src/main/java/me/devupdates/herbalism/ability/Ability.java:131-134 | 0.0 for a level not configured; otherwise the chance of the first configured entry with that number |
| Abilities.HighestUnlocked | src/main/java/me/devupdates/herbalism/ability/Ability.java:102-110 | the maximum level number among entries the player meets, or 0 when there is none |
| Abilities.Ability.UnlockedLevel | src/main/java/me/devupdates/herbalism/ability/Ability.java:102-110 | never negative, at least every level number the player meets, and either 0 or one of those numbers: their maximum |
| Abilities.UnlockedMonotone | src/main/java/me/devupdates/herbalism/ability/Ability.java:102-110 | a higher player level never unlocks a lower ability level |
| Abilities.UnlockedIsConfigured | src/main/java/me/devupdates/herbalism/ability/Ability.java:90-110 | a positive unlocked level is one `getLevel` finds |
| Abilities.UnlockedIsUsable | src/main/java/me/devupdates/herbalism/ability/Ability.java:102-118 | with distinct level numbers the unlocked level passes `canUse` |
| Abilities.CanUseWithinUnlocked | src/main/java/me/devupdates/herbalism/ability/Ability.java:102-118 | a level `canUse` allows is never above the unlocked level, and stays allowed at a higher player level |
| Abilities.NewAbility | src/main/java/me/devupdates/herbalism/ability/Ability.java:19-49 | an unknown type name is the exception; otherwise id, name, description, lore, type, maximum level, passive flag and cooldown are the configured values or their defaults, and the levels are the collected entries sorted ascending, as a permutation |
| AbilityRegistry.Flip | src/main/java/me/devupdates/herbalism/manager/AbilityManager.java:180-188 | only the toggled ability's membership changes, and it flips |
| AbilityRegistry.FlipTwice | src/main/java/me/devupdates/herbalism/manager/AbilityManager.java:180-188 | toggling twice restores the set |
| AbilityRegistry.AbilityManager.constructor | src/main/java/me/devupdates/herbalism/manager/AbilityManager.java:22-28 | the loaded abilities with no cooldowns and no toggles |
| AbilityRegistry.AbilityManager.ToggleAbility | src/main/java/me/devupdates/herbalism/manager/AbilityManager.java:174-189 | an unknown or non-toggle ability returns false and changes nothing; otherwise membership flips and the new state is returned |
| AbilityRegistry.AbilityManager.RemainingCooldown | src/main/java/me/devupdates/herbalism/manager/AbilityManager.java:215-223 | milliseconds left, positive exactly when on cooldown |
| AbilityRegistry.AbilityManager.CooldownRunsOut | src/main/java/me/devupdates/herbalism/manager/AbilityManager.java:202-210 | a cooldown over at some moment stays over; at its recorded end it is already over |
| AbilityRegistry.AbilityManager.ToggledMatchesSet | src/main/java/me/devupdates/herbalism/manager/AbilityManager.java:194-197 | an ability is toggled exactly when it is in the player's set; a player without a set has none toggled |
| AbilityRegistry.AbilityManager.SetCooldown | src/main/java/me/devupdates/herbalism/manager/AbilityManager.java:228-231 | only that player's entry for that ability changes, to now plus the cooldown |
| AbilityRegistry.AbilityManager.ClearCooldowns | src/main/java/me/devupdates/herbalism/manager/AbilityManager.java:236-238 | only that player's cooldowns go |
| AbilityRegistry.AbilityManager.ClearToggles | src/main/java/me/devupdates/herbalism/manager/AbilityManager.java:243-245 | only that player's toggles go |
| AbilityRegistry.AbilityManager.ClearAllData | src/main/java/me/devupdates/herbalism/manager/AbilityManager.java:302-305 | both maps are empty |
| AbilityRegistry.AbilityManager.EffectiveLevel | src/main/java/me/devupdates/herbalism/manager/AbilityManager.java:250-268 | 0 for an unknown, untoggled or cooling ability; for a known ability that is neither a switched-off toggle nor on cooldown, exactly the unlocked level for the player's level; a positive result is a configured level |
| AbilityRegistry.AbilityManager.EffectValue | src/main/java/me/devupdates/herbalism/manager/AbilityManager.java:273-279 | 0.0 whenever the effective level is 0; at a positive effective level, the effect value of that configured level |
| AbilityRegistry.AbilityManager.Chance | src/main/java/me/devupdates/herbalism/manager/AbilityManager.java:284-290 | 0.0 whenever the effective level is 0; at a positive effective level, the chance of that configured level |
| Fertilizers.FertilizerEffect.RemainingTime | src/main/java/me/devupdates/herbalism/manager/FertilizerManager.java:236-240 | milliseconds left, never negative, and 0 whenever the effect has expired |
| Fertilizers.ExpiredStaysExpired | src/main/java/me/devupdates/herbalism/manager/FertilizerManager.java:232-240 | once expired an effect stays expired with no time left |
| Fertilizers.Unswept | src/main/java/me/devupdates/herbalism/manager/FertilizerManager.java:175-196 | the effects a sweep keeps: exactly the permanent or unexpired ones |
| Fertilizers.SweepSettles | src/main/java/me/devupdates/herbalism/manager/FertilizerManager.java:175-196 | a second sweep at the same moment removes nothing more, and a later sweep never brings an effect back |
| Fertilizers.FertilizerManager.constructor | src/main/java/me/devupdates/herbalism/manager/FertilizerManager.java:22-28 | the loaded fertilizers with no active effects |
| Fertilizers.FertilizerManager.GetFertilizer | src/main/java/me/devupdates/herbalism/manager/FertilizerManager.java:63-65 | the configured fertilizer, or none |
| Fertilizers.FertilizerManager.ApplyFertilizer | src/main/java/me/devupdates/herbalism/manager/FertilizerManager.java:89-135 | fails without change for a missing crop or fertilizer, a too-low level or a failed roll; success records the effect at the crop's place, sets only its growth modifier and adds the experience |
| Fertilizers.FertilizerManager.GetFertilizerEffect | src/main/java/me/devupdates/herbalism/manager/FertilizerManager.java:140-149 | the effect at the crop's location, present exactly when `hasFertilizerEffect` holds |
| Fertilizers.FertilizerManager.EffectFollowsLocation | src/main/java/me/devupdates/herbalism/manager/FertilizerManager.java:140-149 | two crops at the same location have the same answer; `hasFertilizerEffect` holds exactly when `getFertilizerEffect` is not null |
| Fertilizers.FertilizerManager.RemoveFertilizerEffect | src/main/java/me/devupdates/herbalism/manager/FertilizerManager.java:154-158 | the location loses its effect and the crop's modifier returns to 1.0 |
| Fertilizers.FertilizerManager.CleanupExpiredFertilizers | src/main/java/me/devupdates/herbalism/manager/FertilizerManager.java:175-196 | exactly the expired non-permanent effects go, and crops at those places return to modifier 1.0 |
| Fertilizers.FertilizerManager.ClearAllEffects | src/main/java/me/devupdates/herbalism/manager/FertilizerManager.java:201-203 | no effect remains |
| Persistence.CacheCrops | src/main/java/me/devupdates/herbalism/manager/DatabaseManager.java:206-212 | the cache gains exactly the ids of the loaded crops |
| Persistence.CacheCropsLastWins | src/main/java/me/devupdates/herbalism/manager/DatabaseManager.java:206-212 | each id keeps the last crop carrying it; ids no crop carries keep their entry |
| Persistence.FlushedPlayersRows | src/main/java/me/devupdates/herbalism/manager/DatabaseManager.java:311-316 | the flush removes no row; every written pending id holds the cached player's row; a failed write keeps the old row |
| Persistence.FlushedCropsRows | src/main/java/me/devupdates/herbalism/manager/DatabaseManager.java:319-324 | the same for crop rows |
| Persistence.DatabaseManager.constructor | src/main/java/me/devupdates/herbalism/manager/DatabaseManager.java:30-32 | empty caches and pending sets, not initialized |
| Persistence.DatabaseManager.Initialize | src/main/java/me/devupdates/herbalism/manager/DatabaseManager.java:37-85 | initialized exactly when connecting and creating the tables succeed, so `isInitialized` then holds; a failure leaves the flag as it was |
| Persistence.DatabaseManager.SavePlayer | src/main/java/me/devupdates/herbalism/manager/DatabaseManager.java:121-135 | no change when not initialized; otherwise the player is cached, its id leaves the pending set on a successful write and joins it on a failed one, and only a successful write changes its row |
| Persistence.DatabaseManager.LoadPlayer | src/main/java/me/devupdates/herbalism/manager/DatabaseManager.java:140-155 | not initialized gives an uncached default player; a cache hit returns the cached player; otherwise the store's answer is cached |
| Persistence.DatabaseManager.SaveCrop | src/main/java/me/devupdates/herbalism/manager/DatabaseManager.java:160-174 | as `SavePlayer`, for crops |
| Persistence.DatabaseManager.LoadCrop | src/main/java/me/devupdates/herbalism/manager/DatabaseManager.java:179-196 | null when not initialized; a cache hit returns the cached crop; otherwise the store's answer, cached only when not null |
| Persistence.DatabaseManager.CacheAll | src/main/java/me/devupdates/herbalism/manager/DatabaseManager.java:206-212 | the crop cache becomes `CacheCrops` of the loaded list |
| Persistence.DatabaseManager.LoadAllCrops | src/main/java/me/devupdates/herbalism/manager/DatabaseManager.java:201-213 | nothing, with the cache unchanged, when not initialized or disconnected; otherwise the store's loadable crops among the rows read before any error, each cached; with every row read, every unharvested crop in a loaded world |
| Persistence.DatabaseManager.LoadPlayerCrops | src/main/java/me/devupdates/herbalism/manager/DatabaseManager.java:218-230 | as `LoadAllCrops`, for one owner's crops |
| Persistence.DatabaseManager.DeleteCrop | src/main/java/me/devupdates/herbalism/manager/DatabaseManager.java:235-244 | when initialized the id leaves the cache and the pending set, the row goes whenever the store is reachable, and true exactly when a row was deleted |
| Persistence.DatabaseManager.UpdateCropStatus | src/main/java/me/devupdates/herbalism/manager/DatabaseManager.java:249-262 | when initialized a cached crop takes both flags; the row's flags change and true exactly when a row existed; otherwise nothing changes |
| Persistence.DatabaseManager.FlushPlayers | src/main/java/me/devupdates/herbalism/manager/DatabaseManager.java:311-316 | player rows become the flushed rows of the pending ids whose writes succeed |
| Persistence.DatabaseManager.FlushCrops | src/main/java/me/devupdates/herbalism/manager/DatabaseManager.java:319-324 | crop rows become the flushed rows of the pending ids whose writes succeed |
| Persistence.DatabaseManager.SaveAllPendingData | src/main/java/me/devupdates/herbalism/manager/DatabaseManager.java:304-333 | false without change when not initialized; otherwise the pending entries are written and both pending sets are emptied whatever the writes report |
| Persistence.DatabaseManager.Shutdown | src/main/java/me/devupdates/herbalism/manager/DatabaseManager.java:90-116 | when initialized, the pending data is flushed, the store disconnected and the flag cleared; afterwards `isInitialized` is false in every case |
| Persistence.DatabaseManager.RemovePlayerFromCache | src/main/java/me/devupdates/herbalism/manager/DatabaseManager.java:375-378 | the id leaves the cache and the pending set |
| Persistence.DatabaseManager.RemoveCropFromCache | src/main/java/me/devupdates/herbalism/manager/DatabaseManager.java:383-386 | the id leaves the cache and the pending set |
| SqliteStore.LoadedRow | src/main/java/me/devupdates/herbalism/database/SQLiteDatabase.java:219-234 | every loaded value lies within its setter's bounds: level in [1, maximum], non-negative experience and counts, plant limit at most the default maximum, maximum at least 1 |
| SqliteStore.LoadSavedRow | src/main/java/me/devupdates/herbalism/database/SQLiteDatabase.java:171-246 | a saved row whose values the setters accept loads back unchanged |
| SqliteStore.LoadedRowSettles | src/main/java/me/devupdates/herbalism/database/SQLiteDatabase.java:219-234 | loading a loaded row changes nothing more |
| SqliteStore.PlantLimitCutToDefault | src/main/java/me/devupdates/herbalism/database/SQLiteDatabase.java:224-225 | because the plant limit is set before the maximum, a stored limit above the configured default is cut to that default |
| SqliteStore.FertilizedByColumn | src/main/java/me/devupdates/herbalism/database/SQLiteDatabase.java:380-381 | NULL exactly for an empty fertilizer list, otherwise the ids joined by commas |
| SqliteStore.FertilizedByRoundTrip | src/main/java/me/devupdates/herbalism/database/SQLiteDatabase.java:671-675 | splitting the column on commas gives the fertilizers back |
| SqliteStore.RowDataFields | src/main/java/me/devupdates/herbalism/database/SQLiteDatabase.java:653-669 | the map built from a row agrees with the serialized map of its columns |
| SqliteStore.CropRowRoundTrip | src/main/java/me/devupdates/herbalism/database/SQLiteDatabase.java:630-678 | saving a crop whose fertilizers do not repeat and reading the row back rebuilds the same crop |
| SqliteStore.RowDecodes | src/main/java/me/devupdates/herbalism/database/SQLiteDatabase.java:630-678 | a row always decodes, to a crop with the row's identity, place and flags |
| SqliteStore.LoadableExactly | src/main/java/me/devupdates/herbalism/database/SQLiteDatabase.java:418-467 | the crops loaded are exactly the unharvested rows of the query in a loaded world, in row order |
| SqliteStore.ReadPrefix | src/main/java/me/devupdates/herbalism/database/SQLiteDatabase.java:418-467 | the rows read before an error are the first `rowsRead` of the result set, all of them once `rowsRead` reaches its length |
| SqliteStore.ApplyAllConcat | src/main/java/me/devupdates/herbalism/database/SQLiteDatabase.java:530-547 | running two batches one after the other is running their concatenation |
| SqliteStore.ApplyAllKeyed | src/main/java/me/devupdates/herbalism/database/SQLiteDatabase.java:530-547 | every statement keeps each row under its own key |
| SqliteStore.CropFromRow | src/main/java/me/devupdates/herbalism/database/SQLiteDatabase.java:630-678 | null when the row's world is not loaded, otherwise a fresh crop holding the decoded row |
| SqliteStore.AppendRow | src/main/java/me/devupdates/herbalism/database/SQLiteDatabase.java:445-467 | one step of the result-set loop appends the row's crop when it is selected and its world is loaded |
| SqliteStore.SelectCrops | src/main/java/me/devupdates/herbalism/database/SQLiteDatabase.java:418-467 | the crops built hold exactly the loadable records, in row order |
| SqliteStore.ApplyStoredRow | src/main/java/me/devupdates/herbalism/database/SQLiteDatabase.java:222-232 | the setter calls leave the player equal to `LoadedRow` of the stored row |
| SqliteStore.SqliteDatabase.constructor | src/main/java/me/devupdates/herbalism/database/SQLiteDatabase.java:24-27 | a store over the given rows, not connected |
| SqliteStore.SqliteDatabase.Connect | src/main/java/me/devupdates/herbalism/database/SQLiteDatabase.java:30-66 | connected exactly when opening succeeds; once opened the pool stays open |
| SqliteStore.SqliteDatabase.Disconnect | src/main/java/me/devupdates/herbalism/database/SQLiteDatabase.java:69-77 | an open pool is closed and the flag cleared |
| SqliteStore.SqliteDatabase.ConnectedOnlyWhileOpen | src/main/java/me/devupdates/herbalism/database/SQLiteDatabase.java:80-82 | the store is connected only while its pool is open |
| SqliteStore.SqliteDatabase.SavePlayer | src/main/java/me/devupdates/herbalism/database/SQLiteDatabase.java:171-206 | an upsert: afterwards exactly one row holds the player under its uuid, other rows unchanged; a failure or no connection changes nothing |
| SqliteStore.SqliteDatabase.LoadPlayer | src/main/java/me/devupdates/herbalism/database/SQLiteDatabase.java:209-246 | a fresh default player without a row or on error, otherwise the row through the clamping setters |
| SqliteStore.SqliteDatabase.PlayerExists | src/main/java/me/devupdates/herbalism/database/SQLiteDatabase.java:249-265 | true exactly when a row exists and the query runs |
| SqliteStore.SqliteDatabase.DeletePlayer | src/main/java/me/devupdates/herbalism/database/SQLiteDatabase.java:268-284 | true exactly when a row was deleted |
| SqliteStore.SqliteDatabase.GetAllPlayers | src/main/java/me/devupdates/herbalism/database/SQLiteDatabase.java:287-322 | nothing when not connected; otherwise the rows read before any error, in the query's order by level then experience (both descending), each loaded through the clamping setters; with every row read, every stored row appears; levels come out non-increasing |
| SqliteStore.SqliteDatabase.UpdatePlayerStats | src/main/java/me/devupdates/herbalism/database/SQLiteDatabase.java:325-352 | only the four columns of an existing row change; true exactly when one matched |
| SqliteStore.SqliteDatabase.SaveCrop | src/main/java/me/devupdates/herbalism/database/SQLiteDatabase.java:355-392 | an upsert of the crop's row, other rows unchanged |
| SqliteStore.SqliteDatabase.LoadCrop | src/main/java/me/devupdates/herbalism/database/SQLiteDatabase.java:395-415 | the crop of an existing row in a loaded world, or null |
| SqliteStore.SqliteDatabase.LoadAllCrops | src/main/java/me/devupdates/herbalism/database/SQLiteDatabase.java:445-467 | nothing when not connected; otherwise exactly the unharvested crops in a loaded world among the rows read before any error, in row order; with every row read, every such crop appears |
| SqliteStore.SqliteDatabase.LoadPlayerCrops | src/main/java/me/devupdates/herbalism/database/SQLiteDatabase.java:418-442 | as `LoadAllCrops`, restricted to one owner |
| SqliteStore.SqliteDatabase.DeleteCrop | src/main/java/me/devupdates/herbalism/database/SQLiteDatabase.java:470-486 | true exactly when a row was deleted |
| SqliteStore.SqliteDatabase.DeletePlayerCrops | src/main/java/me/devupdates/herbalism/database/SQLiteDatabase.java:489-505 | every row of that owner goes; true exactly when there was one |
| SqliteStore.SqliteDatabase.UpdateCropStatus | src/main/java/me/devupdates/herbalism/database/SQLiteDatabase.java:508-527 | both flags of an existing row change; true exactly when one matched |
| SqliteStore.SqliteDatabase.ExecuteBatch | src/main/java/me/devupdates/herbalism/database/SQLiteDatabase.java:530-547 | the statements take effect together, committed only when none fails; otherwise false and nothing changes |
| TimeUtil.FormatTime | src/main/java/me/devupdates/herbalism/util/TimeUtil.java:8-34 | "0s" for a non-positive input; otherwise non-empty, starting with a digit and ending in a unit letter, so never with a trailing space; what the text denotes is stated by `TimeUtil.FormatTimeParsesBack` |
| TimeUtil.FormatTimeFieldsRecompose | src/main/java/me/devupdates/herbalism/util/TimeUtil.java:13-17 | the printed days, hours, minutes and seconds recompose the input, with hours below 24 and minutes and seconds below 60 |
| TimeUtil.FieldText | src/main/java/me/devupdates/herbalism/util/TimeUtil.java:19-30 | a field is printed exactly when its count is positive |
| TimeUtil.FormatTimeMillis | src/main/java/me/devupdates/herbalism/util/TimeUtil.java:39-41 | formatTime of the milliseconds divided by 1000 with truncation |
| TimeUtil.FormatTimePattern | src/main/java/me/devupdates/herbalism/util/TimeUtil.java:46-61 | "0s" for a non-positive input; otherwise the pattern with {days}, {hours}, {minutes} and {seconds} replaced by the input's day, hour, minute and second fields, so a pattern without placeholders comes back unchanged |
| TimeUtil.PatternSingleField | src/main/java/me/devupdates/herbalism/util/TimeUtil.java:46-61 | a pattern holding only {days}, {hours}, {minutes} or {seconds} prints exactly that field of the input |
| TimeUtil.FormatTimeShort | src/main/java/me/devupdates/herbalism/util/TimeUtil.java:66-80 | the number shown parses back to the whole count of the largest unit not above the input, followed by that unit's letter |
| TimeUtil.ShortUnit | src/main/java/me/devupdates/herbalism/util/TimeUtil.java:66-80 | the unit is the largest of second, minute, hour and day not above the input |
| TimeUtil.SplitAfterDigits | src/main/java/me/devupdates/herbalism/util/TimeUtil.java:94 | the pieces the split regex makes, none holding a digit followed by a non-digit |
| TimeUtil.ParseTime | src/main/java/me/devupdates/herbalism/util/TimeUtil.java:85-119 | 0 for null or blank input, otherwise the running total of the pieces of the lower-cased trimmed text |
| TimeUtil.SumPieces | src/main/java/me/devupdates/herbalism/util/TimeUtil.java:96-116 | the loop's total is the total of the pieces |
| TimeUtil.UnitSuffixNeverParses | src/main/java/me/devupdates/herbalism/util/TimeUtil.java:94-109 | a piece ending in a unit letter never parses, because the split always cuts before that letter |
| TimeUtil.TotalIgnoresUnits | src/main/java/me/devupdates/herbalism/util/TimeUtil.java:94-116 | as written, only pieces that are plain ASCII-digit numbers count, as seconds; no unit ever multiplies anything |
| TimeUtil.ParseTimeIgnoresUnits | src/main/java/me/devupdates/herbalism/util/TimeUtil.java:85-119 | for every input the total equals the plain-number total |
| TimeUtil.ParseTimeHourMinuteExample | src/main/java/me/devupdates/herbalism/util/TimeUtil.java:93-94 | as written "1h30m" parses to 1 |
| TimeUtil.ParseTimeIntended | src/main/java/me/devupdates/herbalism/util/TimeUtil.java:85-119 | the same parse with the intended split before each number |
| TimeUtil.TermsParse | src/main/java/me/devupdates/herbalism/util/TimeUtil.java:93-116 | with the intended split a run of number-unit terms parses to the seconds they denote |
| TimeUtil.ParseTimeIntendedHourMinuteExample | src/main/java/me/devupdates/herbalism/util/TimeUtil.java:93-94 | with the intended split "1h30m" parses to 5400 |
| TimeUtil.FormatTimeParsesBack | src/main/java/me/devupdates/herbalism/util/TimeUtil.java:8-119 | for every positive input within the long range, parsing `formatTime`'s text with the intended split gives the input back |
| TimeUtil.CompletedCells | src/main/java/me/devupdates/herbalism/util/TimeUtil.java:129-133 | for a positive total the completed cell count lies in [0, length], and is 0 for a negative length |
| TimeUtil.CreateProgressBar | src/main/java/me/devupdates/herbalism/util/TimeUtil.java:124-141 | only remaining cells when the total is not positive, and the exception `repeat` throws when the length is then negative; otherwise the completed cells followed by the remaining ones |
| TimeUtil.ProgressBarFull | src/main/java/me/devupdates/herbalism/util/TimeUtil.java:124-141 | a current equal to a positive total fills every cell |
| TimeUtil.ProgressBarEmpty | src/main/java/me/devupdates/herbalism/util/TimeUtil.java:124-141 | a non-positive current completes no cell |
| TimeUtil.RemainingTime | src/main/java/me/devupdates/herbalism/util/TimeUtil.java:167-177 | the milliseconds still to wait, never negative, zero exactly when the time has passed |
| TimeUtil.TimePassedPersists | src/main/java/me/devupdates/herbalism/util/TimeUtil.java:167-169 | once the time has passed it stays passed, and it has passed at start plus duration |
| TimeUtil.RemainingTimeSeconds | src/main/java/me/devupdates/herbalism/util/TimeUtil.java:182-184 | the wait in whole seconds |
| Language.KeysUnderPath | src/main/java/me/devupdates/herbalism/language/LanguageManager.java:53-78 | every key the flattening adds starts with the path and a dot |
| Language.FlattenFrame | src/main/java/me/devupdates/herbalism/language/LanguageManager.java:45-79 | keys outside the path are left as they were |
| Language.LeafStored | src/main/java/me/devupdates/herbalism/language/LanguageManager.java:60-76 | each list or value of the section is stored under its dotted path, a list joined by newlines |
| Language.PairsMapKeys | src/main/java/me/devupdates/herbalism/language/LanguageManager.java:213-227 | the keys are exactly the arguments at even positions |
| Language.PairsMapLastWins | src/main/java/me/devupdates/herbalism/language/LanguageManager.java:213-227 | a later duplicate key overwrites an earlier one |
| Language.FixedAritiesAgree | src/main/java/me/devupdates/herbalism/language/LanguageManager.java:187-210 | each fixed-arity overload builds the same map as the general one |
| Language.CreatePlaceholders | src/main/java/me/devupdates/herbalism/language/LanguageManager.java:213-227 | an odd argument count is the exception; otherwise the pairs as a map |
| Language.SubstitutedNoBrace | src/main/java/me/devupdates/herbalism/language/LanguageManager.java:91-103 | a message without "{" comes out of substitution unchanged |
| Language.OnePlaceholderReplaced | src/main/java/me/devupdates/herbalism/language/LanguageManager.java:91-103 | a message with one placeholder gets the value in its place |
| Language.PlaceholderBuilder.constructor | src/main/java/me/devupdates/herbalism/language/LanguageManager.java:234-235 | an empty builder |
| Language.PlaceholderBuilder.Add | src/main/java/me/devupdates/herbalism/language/LanguageManager.java:237-240 | the key maps to the value, a previous value replaced |
| Language.PlaceholderBuilder.Build | src/main/java/me/devupdates/herbalism/language/LanguageManager.java:242-244 | a map value of its own, which later `Add` calls do not change |
| Language.LanguageManager.constructor | src/main/java/me/devupdates/herbalism/language/LanguageManager.java:19-22 | the messages and prefix are those `loadLanguage` computes |
| Language.LanguageManager.LoadLanguage | src/main/java/me/devupdates/herbalism/language/LanguageManager.java:24-43 | the prefix is read or defaulted, and the messages become the flattened "messages" section |
| Language.LanguageManager.LoadMessagesRecursively | src/main/java/me/devupdates/herbalism/language/LanguageManager.java:45-79 | nothing for a missing section, otherwise the section flattened under the path |
| Language.LanguageManager.ReloadLanguage | src/main/java/me/devupdates/herbalism/language/LanguageManager.java:181-184 | whatever was loaded before is dropped and the file loaded afresh |
| Language.LanguageManager.GetMessage | src/main/java/me/devupdates/herbalism/language/LanguageManager.java:81-89 | the stored message, or the fallback ending in the key when there is none |
| Language.LanguageManager.LoadedValueFound | src/main/java/me/devupdates/herbalism/language/LanguageManager.java:53-76 | after loading, each value of the section is found under its "messages." key |
| Language.LanguageManager.LoadedKeysUnderMessages | src/main/java/me/devupdates/herbalism/language/LanguageManager.java:24-43 | after loading, a key outside "messages." always gives the fallback |
| Language.LanguageManager.GetMessageWith | src/main/java/me/devupdates/herbalism/language/LanguageManager.java:91-103 | without a map the colourised message; with one, each placeholder replaced in the map's order, then colourised |
| Language.JoinLines | src/main/java/me/devupdates/herbalism/language/LanguageManager.java:61-70 | the lines joined by newlines, with none after the last |
| TabCompletion.Filtered | src/main/java/me/devupdates/herbalism/command/HerbalismTabCompleter.java:189-191 | exactly the suggestions that start with the partial ignoring case |
| TabCompletion.FilteredKeepsOrder | src/main/java/me/devupdates/herbalism/command/HerbalismTabCompleter.java:189-191 | the filter keeps the suggestions' order and every matching occurrence |
| TabCompletion.FilterSuggestions | src/main/java/me/devupdates/herbalism/command/HerbalismTabCompleter.java:184-192 | an empty partial returns the list unchanged; otherwise the filter |
| TabCompletion.CropIds | src/main/java/me/devupdates/herbalism/command/HerbalismTabCompleter.java:172-182 | nothing without a crop manager, otherwise the matching crop type ids |
| TabCompletion.OnTabComplete | src/main/java/me/devupdates/herbalism/command/HerbalismTabCompleter.java:26-61 | nothing for no arguments or an unknown subcommand; one argument completes the eight subcommands |
| TabCompletion.PermissionGates | src/main/java/me/devupdates/herbalism/command/HerbalismTabCompleter.java:63-145 | the exp, level and load branches complete nothing without their permission |
| TabCompletion.LoadDispatch | src/main/java/me/devupdates/herbalism/command/HerbalismTabCompleter.java:119-131 | the third load argument completes the ids of the named type, and nothing for an unknown type |
| TabCompletion.CompletionsMatchLastArgument | src/main/java/me/devupdates/herbalism/command/HerbalismTabCompleter.java:26-145 | every completion matches the argument being typed, except past the stats branch's second argument |
| TabCompletion.StatsIgnoresLaterArguments | src/main/java/me/devupdates/herbalism/command/HerbalismTabCompleter.java:38-41 | in the stats branch only the second argument filters player names |
| Menus.GuiManager.constructor | src/main/java/me/devupdates/herbalism/manager/GuiManager.java:18-20 | no recorded openings |
| Menus.GuiManager.RemainingCooldown | src/main/java/me/devupdates/herbalism/manager/GuiManager.java:70-78 | 0 without a record, otherwise what is left of the second, never negative |
| Menus.GuiManager.OpenMainMenu | src/main/java/me/devupdates/herbalism/manager/GuiManager.java:25-39 | on cooldown nothing changes; the opening time is recorded only when the menu opened without an exception |
| Menus.GuiManager.ClearCooldowns | src/main/java/me/devupdates/herbalism/manager/GuiManager.java:56-58 | only that player's record goes |
| Menus.GuiManager.ClearAllCooldowns | src/main/java/me/devupdates/herbalism/manager/GuiManager.java:63-65 | no record remains |
| Menus.GuiManager.CooldownAgreement | src/main/java/me/devupdates/herbalism/manager/GuiManager.java:44-78 | time left means the menu stays closed and an openable menu has none left; the one moment that is neither is an elapsed time exactly equal to the cooldown, because the check is strict |
| Menus.GuiManager.CooldownMonotone | src/main/java/me/devupdates/herbalism/manager/GuiManager.java:44-78 | once the menu may open it stays openable, and time left only shrinks |
| Ids.ParseUuid | src/main/java/me/devupdates/herbalism/crop/Crop.java:250-252 | only canonical UUID text parses; anything else is the exception |
| Text.SplitJoin | src/main/java/me/devupdates/herbalism/database/SQLiteDatabase.java:671-675 | splitting joined pieces that are non-empty and comma-free gives them back |
| Text.ParseIntToString | src/main/java/me/devupdates/herbalism/util/TimeUtil.java:98-110 | printing a number and parsing it back gives the number |

## Left out

- World and UI side effects are not modelled: block placement and removal, inventory drops (`CropManager.calculateDrops`), holograms, GUI contents, and chat, title and action-bar messages. What a block is (air, farmland) enters as a parameter.
- The `AbilityManager.handleCrop*` hooks are not modelled. They roll dice and send messages around `getEffectiveLevel`/`getChance`, which are modelled.
- `CropManager.saveAllCrops`/`loadAllCrops` and `PlayerManager.loadPlayerFromDatabase` are empty stubs in the source. The persistence layer is modelled on its own, as the source leaves it.
- `CropManager.loadCropTypes` and the `Ability`/`Fertilizer` YAML readers are not modelled. The parsed configuration is a parameter; `Abilities.NewAbility` takes the level sections already read.
- `MessageUtil.colorize` is a foreign call and is kept uninterpreted. `LanguageManager`'s `send*` methods and `getFormattedMessage` only send or prefix text, and are not modelled.
- `String.valueOf` of placeholder values is not modelled: values are strings already. The order in which a `HashMap` yields its placeholders is a parameter (`order`).
- Floating point is modelled as `real`, with truncation where Java casts to `long`; IEEE rounding is not modelled.
- `CropManager.getPlayerCrops` returns a set of crop objects; the `ArrayList` order is not modelled.
- `CropRegistry.CropManager.PlantCrop`, `HarvestCrop` and `PerformHarvest` take the id of the new crop as a parameter that must not be in use; random UUID collisions are not modelled.
- Counters and sums are unbounded integers except where the source's own arithmetic is written out: `Wrap64` in `parseTime`, `Wrap32` for the periodic-save interval. Overflow of the other `long` counters is not modelled.
- PlayerRegistry.PlayerManager.TopPlayers: ties in the metric may come out in any order; the source's stable sort keeps map iteration order, which is not modelled.
- `GuiManager` reads the clock twice, once in `canOpenMenu` and once when recording; the model uses one `now` for both.
- Case folding is ASCII only (`Text.ToLower`, `Text.ToUpper`); Java's locale-dependent Unicode folding is not modelled.
- Ids.ParseUuid: accepts only canonical lower-case UUID text. `UUID.fromString` is more lenient, for example about upper case and short groups.
- Concurrency is not modelled. `CompletableFuture` results are taken in call order, and `ConcurrentHashMap` atomicity is not modelled.
- `DatabaseManager.initialize` is modelled for the SQLite store only; table creation enters as a success flag. `SQLiteDatabase.initializeTables` (the SQL schema) is not modelled.
- Not modelled, because they act on the engine, files or the scheduler: `performMaintenance`, `getStats`, `createBackup`, `getCacheStats`, `startScheduledTasks`, `FertilizerManager.startFertilizerTask`, `PlayerManager.onPlayerQuit`'s delayed unload, and the shutdown timeouts.
- SqliteStore.SqliteDatabase.GetAllPlayers: returns the loaded rows rather than player objects.
- SqliteStore.SqliteDatabase.GetAllPlayers, LoadAllCrops and LoadPlayerCrops: the engine's row order is a parameter (`order`) that lists each stored key exactly once and, for players, follows the query's `ORDER BY`. Where a `SQLException` stops the result set is a parameter too (`rowsRead`, the rows read before it).
- Crops.Decode: a missing `crop_type`, `owner_name` or `world` entry gives None. The source instead builds a crop whose field is null (or whose world is null); the model has no null strings. An entry of the wrong kind gives None in both, as the source's cast throws.
- Text.ParseDecimal: accepts the ASCII digits `0`-`9` only. `Long.parseLong` and `Integer.parseInt` also accept other Unicode decimal digits, so `TimeUtil.ParseTime` is modelled for ASCII input.
- Crops.Crop: `fertilizedBy` is a `HashSet` in the source and a repeat-free sequence here. Its order is a model choice (`addFertilizedBy` appends); the `HashSet` iteration order that `serialize` and the database column follow is not modelled.
- `TimeUtil.formatDate` is not modelled (it uses `SimpleDateFormat`), and neither is `Crop.getGrowthProgress` (a floating-point percentage).
- `HerbalismPlayer.serialize`/`deserialize` are not modelled. Player persistence goes through the database rows, which are.
- TimeUtil.TermsParse: proved for at most 1000 terms, each with a count of at most 1,000,000. These bounds keep the running total within the signed 64-bit range; no 64-bit wrap-around is involved.

## Findings

| source | as written | input that shows it | evidently intended | confidence | as-written member | corrected member |
|---|---|---|---|---|---|---|
| src/main/java/me/devupdates/herbalism/util/TimeUtil.java:94 | the split regex `(?<=\d)(?=\D)` cuts after each number, so every unit letter starts the next piece and no piece ever ends in a unit; all units are ignored and only pieces that are bare numbers count, as seconds (shown for ASCII digits) | "1h30m" splits into "1", "h30", "m" and parses to 1 | split before each number, `(?<=\D)(?=\d)`, so that "1h30m" gives "1h", "30m" and 5400 seconds, as the comment on line 93 describes | not executed | TimeUtil.ParseTimeHourMinuteExample | TimeUtil.ParseTimeIntendedHourMinuteExample |
