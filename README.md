# NPCRoomSpawner in Dafny

A model of the room-based NPC spawn trigger of the TerrariaCells mod
(`Common/Systems/NPCRoomSpawner.cs`), with proofs of what it promises.

- **Spawn table (`SetupJson`).** The mod reads a list of biomes, each with
  rooms, each with spawn entries. It gives every room an effective id and
  adds it to the spawn table with `Dictionary.Add`. The id is the name
  itself when it starts with the biome name, `{biome}_{name}` for any
  other name, and `{biome}_roomNo{k}` for a room without a name, where `k`
  is the room's position in its biome.
- **Room markers (`RoomMarker`).** Each placed room has an anchor, a name,
  bounds taken from the structure library's room dimensions, and a
  one-shot `didSpawns` flag.
- **The trigger.** After every NPC update, each active player, in slot
  order, updates every marker in list order. A marker whose widened
  bounds contain the player's center spawns its room's NPCs once. Each
  NPC's type is resolved from a number, a vanilla NPC name or a mod NPC
  name.
- **Persistence.** Markers are saved into the world's tag compound under
  positional keys and appended back on load.

Modules, one per file:

| file | module | contents |
|---|---|---|
| `wrappers.dfy` | `Wrappers` | `Option`, `Result` |
| `spawn_types.dfy` | `SpawnTypes` | the value types: points, spawn entries, the table, spawn events, exceptions |
| `decimal.dfy` | `Decimal` | decimal text of integers as C# writes it, and a simplified `int.TryParse` |
| `npc_type.dfy` | `NpcTypes` | the `NPCSpawnInfo.NPCType` getter |
| `spawn_table.dfy` | `SpawnTable` | room ids and the table `SetupJson` builds, as a specification (`BuildSpec`) and as the nested loops (`Build`) |
| `room_marker.dfy` | `Rooms` | class `RoomMarker`: bounds, `InRange`, the spawn calls and `Update` |
| `room_spawner.dfy` | `RoomSpawner` | class `NpcRoomSpawner`: the marker list and the table, `SetupJson`, `PostUpdateNPCs`, `SaveWorldData`, `LoadWorldData` |

How the code's behaviour is represented:

- **Exceptions.** A thrown exception is the `Threw` outcome of a call. It
  propagates as in C#:
  - an NPC type that cannot be found, or a room id missing from the table,
    ends the spawn loop;
  - it also ends `Update`, the rest of the pass over the markers and the
    rest of the tick.
- **Spawned NPCs.** Every NPC spawned is recorded as an event
  `(type, x, y)`.
- **Engine lookups are parameters:**
  - the structure library's room dimensions (`Dimensions`);
  - the vanilla and mod NPC name registries (`Registries`);
  - the player slots (`Player`);
  - the tag compound (a map from key to value).

Two behaviours follow the code even where a description of the system
might suggest otherwise:

- **A repeated room id makes `Dictionary.Add` throw.** The table is then
  not published, rather than the later room overwriting the earlier one.
- **The `NPCType` cache never reaches the table.** The getter caches its
  result in the struct it runs on, and the spawn loops run it on the
  `foreach` copy. So the cache is dropped, and entries stored in the table
  stay uncached (`SpawnTable.TableEntriesUncached`).

## Model

| member | source | states |
|---|---|---|
| Decimal.NatToString | Common/Systems/NPCRoomSpawner.cs:58 | the text written for a room index is non-empty, all digits, and without a leading zero |
| Decimal.NatToStringValue | Common/Systems/NPCRoomSpawner.cs:58 | reading the digits written for n gives n back |
| Decimal.ParseDigitsAccepts | Common/Systems/NPCRoomSpawner.cs:266 | a digit string is read exactly when every character is a decimal digit |
| Decimal.NonDigitRejected | Common/Systems/NPCRoomSpawner.cs:266 | one non-digit anywhere makes the read fail |
| Decimal.NatToStringInjective | Common/Systems/NPCRoomSpawner.cs:58 | distinct indexes are written as distinct texts |
| Decimal.ParseInt | Common/Systems/NPCRoomSpawner.cs:266 | a successful parse is a value in the 32-bit range |
| Decimal.IntToString | Common/Systems/NPCRoomSpawner.cs:266 | the decimal text of any integer, the writer `int.TryParse` is checked against: non-empty, and starting with '-' exactly for a negative number |
| Decimal.ParseIntToString | Common/Systems/NPCRoomSpawner.cs:266 | parsing the decimal text of any 32-bit integer gives it back |
| Decimal.NameIsNotNumber | Common/Systems/NPCRoomSpawner.cs:266 | a text starting with neither a sign nor a digit does not parse |
| NpcTypes.ResolveType | Common/Systems/NPCRoomSpawner.cs:258-273 | on success only the cache changes, and it changes to the returned type; on failure the error is the not-found exception and nothing is cached; it fails exactly when nothing is cached and the parse and both registry lookups fail |
| NpcTypes.CachedTypeWins | Common/Systems/NPCRoomSpawner.cs:264-265 | a cached type is returned unchanged whatever the registries hold |
| NpcTypes.ResolveIdempotent | Common/Systems/NPCRoomSpawner.cs:264-271 | reading the getter again on the updated entry returns the same type and changes nothing, even with other registries |
| NpcTypes.NumericTextResolves | Common/Systems/NPCRoomSpawner.cs:266-267 | any text that parses as a 32-bit integer, canonical or not, resolves to that integer and caches it, whatever the registries hold |
| Decimal.ParseIntNonCanonical | Common/Systems/NPCRoomSpawner.cs:266 | a leading '+', leading zeros and "-0" all parse |
| NpcTypes.NumericNameResolves | Common/Systems/NPCRoomSpawner.cs:266-267 | the decimal text of a 32-bit number resolves to that number without the registries |
| NpcTypes.VanillaBeforeModded | Common/Systems/NPCRoomSpawner.cs:268-270 | a non-numeric name known to both registries resolves to the vanilla type |
| NpcTypes.FailureIsRetried | Common/Systems/NPCRoomSpawner.cs:270-272 | a failed lookup caches nothing, so a retry after the mod registry gains the name succeeds with the mod's type |
| SpawnTable.EffectiveRoomId | Common/Systems/NPCRoomSpawner.cs:43-61 | a computed id is non-empty and starts with the biome name when there is one; computing it throws exactly when the biome name is null and the room name is non-empty |
| SpawnTable.PrefixedNameKept | Common/Systems/NPCRoomSpawner.cs:51-53 | a name that already starts with the biome name, with or without an underscore, is kept as is |
| SpawnTable.OtherNamePrefixed | Common/Systems/NPCRoomSpawner.cs:53-54 | any other non-empty name becomes biome, '_', name |
| SpawnTable.RoomIdExamples | Common/Systems/NPCRoomSpawner.cs:43-61 | in biome "Cave": "Foo" becomes "Cave_Foo"; "Cave_Foo" and "CaveFoo" are kept; an unnamed third room is "Cave_roomNo2" |
| SpawnTable.AutoIdsDistinct | Common/Systems/NPCRoomSpawner.cs:56-61 | two unnamed rooms of one biome at different positions get different ids |
| SpawnTable.AllRoomsIndex | Common/Systems/NPCRoomSpawner.cs:41-61 | room k of a biome is visited right after all rooms of earlier biomes and numbered k: the counter counts named and unnamed rooms and restarts in each biome |
| SpawnTable.AllRoomsAppend | Common/Systems/NPCRoomSpawner.cs:41-47 | the rooms of two lists of biomes are visited as the rooms of the first list, then those of the second |
| SpawnTable.AddRoomsFailureSticks | Common/Systems/NPCRoomSpawner.cs:73 | once an `Add` has thrown, the rooms after it change nothing |
| SpawnTable.AddRoomsValid | Common/Systems/NPCRoomSpawner.cs:43-73 | when the table is published, every room's id was computed without an exception |
| SpawnTable.AddRoomsKeys | Common/Systems/NPCRoomSpawner.cs:73-78 | the published table's keys are exactly the rooms' ids |
| SpawnTable.AddRoomsLookup | Common/Systems/NPCRoomSpawner.cs:63-78 | the published table maps each room's id to that id and to the room's entries, in order and with the defaults applied |
| SpawnTable.AddRoomsSucceedsIff | Common/Systems/NPCRoomSpawner.cs:43-78 | the table is published exactly when every id can be computed and no two rooms share an id |
| SpawnTable.TableEntriesUncached | Common/Systems/NPCRoomSpawner.cs:71-73 | every published entry is stored under its own id, with no cached NPC type |
| SpawnTable.EmptyIdNeverStored | Common/Systems/NPCRoomSpawner.cs:51-61 | no room of a published table has the empty id |
| SpawnTable.FailureReachesEnd | Common/Systems/NPCRoomSpawner.cs:41-75 | once the rooms of the first biomes have thrown, the whole setup throws that exception |
| SpawnTable.ReadSpawnInfo | Common/Systems/NPCRoomSpawner.cs:63-72 | the loop yields the room's entries in order, with type "0" and offsets 0 for absent fields |
| SpawnTable.RoomId | Common/Systems/NPCRoomSpawner.cs:49-60 | the branches of the room loop compute the effective id, or the exception of a null biome name |
| SpawnTable.AddBiomeRooms | Common/Systems/NPCRoomSpawner.cs:43-74 | the inner loop adds the biome's rooms with `Add` semantics, numbering them from 0, up to the first exception |
| SpawnTable.Build | Common/Systems/NPCRoomSpawner.cs:31-79 | the nested loops compute the specified table, or its first exception |
| Rooms.SpawnPassEvents | Common/Systems/NPCRoomSpawner.cs:202-205 | a spawn loop issues one spawn per entry, in order, at the entry's position with its resolved type, until the first entry whose type is not found; it completes exactly when every entry resolves, and otherwise throws that entry's exception |
| Rooms.RoomMarker.constructor | Common/Systems/NPCRoomSpawner.cs:129-133 | sets anchor and name; the placement size is 0 and the flag false |
| Rooms.RoomMarker.FromTile | Common/Systems/NPCRoomSpawner.cs:138-142 | sets the anchor to (i, j) and the name |
| Rooms.RoomMarker.WithSize | Common/Systems/NPCRoomSpawner.cs:210-214 | also sets `a_width` and `a_height` |
| Rooms.RoomMarker.InternalRoomName | Common/Systems/NPCRoomSpawner.cs:122 | the id is the biome name, an underscore and the room name; given the biome, the room name can be read back from it |
| Rooms.RoomMarker.Size | Common/Systems/NPCRoomSpawner.cs:153-165 | the structure library's dimensions of the room name, or (0, 0) when that lookup throws |
| Rooms.RoomMarker.Width | Common/Systems/NPCRoomSpawner.cs:167 | the x of `Size`, in tiles |
| Rooms.RoomMarker.Height | Common/Systems/NPCRoomSpawner.cs:168 | the y of `Size`, in tiles |
| Rooms.HalfTowardZero | Common/Systems/NPCRoomSpawner.cs:170 | C#'s `int / 2`: half the operand rounded toward zero, with the operand's sign |
| Rooms.RoomMarker.Center | Common/Systems/NPCRoomSpawner.cs:170 | the anchor moved by half the width and half the height, each truncated toward zero (its bounds are stated by `CenterBetweenEdges`) |
| Rooms.RoomMarker.Left | Common/Systems/NPCRoomSpawner.cs:171 | the anchor's x |
| Rooms.RoomMarker.Top | Common/Systems/NPCRoomSpawner.cs:172 | the anchor's y |
| Rooms.RoomMarker.Right | Common/Systems/NPCRoomSpawner.cs:173 | the anchor's x plus the width |
| Rooms.RoomMarker.Bottom | Common/Systems/NPCRoomSpawner.cs:174 | the anchor's y plus the height |
| Rooms.RoomMarker.InRange | Common/Systems/NPCRoomSpawner.cs:190-197 | the strict four-sided test of the position against the bounds ×16 widened by 512 on each side (restated as a distance by `InRangeByDistance`) |
| Rooms.RoomMarker.GetNpcSpawns | Common/Systems/NPCRoomSpawner.cs:176 | succeeds exactly when the name is a key, with its entry; otherwise throws key-not-found for the name |
| Rooms.RoomMarker.TryGetNpcSpawns | Common/Systems/NPCRoomSpawner.cs:177 | present exactly when the name is a key, with its entry |
| Rooms.RoomMarker.GetAndTryGetAgree | Common/Systems/NPCRoomSpawner.cs:176-177 | the indexer throws exactly when `TryGetValue` reports absence, and otherwise both give the same entry |
| Rooms.RoomMarker.FailedLookupCollapses | Common/Systems/NPCRoomSpawner.cs:153-174 | when the dimension lookup throws, the size is (0, 0) and every bound and the center is the anchor |
| Rooms.RoomMarker.CenterBetweenEdges | Common/Systems/NPCRoomSpawner.cs:170 | the center lies between the edges, at half the extent truncated toward the anchor, for either sign of the extent |
| Rooms.RoomMarker.InRangeByDistance | Common/Systems/NPCRoomSpawner.cs:190-197 | for a non-negative extent, a position is in range exactly when its distance to the bounds (×16) is under 512 on each axis |
| Rooms.RoomMarker.WidenedEdgeExcluded | Common/Systems/NPCRoomSpawner.cs:190-197 | a position exactly on any of the four widened edges is out of range |
| Rooms.RoomMarker.CollapsedRange | Common/Systems/NPCRoomSpawner.cs:153-165 | with the lookup failing, the range is the open square of half-side 512 around the anchor (×16) |
| Rooms.SpawnPassAfterThrow | Common/Systems/NPCRoomSpawner.cs:202-205 | once an entry's lookup has thrown, the later entries add nothing: the loop's result is the result up to that entry |
| Rooms.RoomMarker.RunSpawns | Common/Systems/NPCRoomSpawner.cs:202-205 | the `foreach` loop issues exactly the specified spawn pass |
| Rooms.RoomMarker.HandleSpawns | Common/Systems/NPCRoomSpawner.cs:199-207 | does nothing if already spawned; otherwise spawns the room's list measured from the top edge and sets the flag only if nothing throws |
| Rooms.RoomMarker.AHandleSpawns | Common/Systems/NPCRoomSpawner.cs:224-232 | the same, with y measured up from `Top + a_height` |
| Rooms.RoomMarker.Update | Common/Systems/NPCRoomSpawner.cs:180-187 | a player in range makes the marker run `a_HandleSpawns`; otherwise nothing changes |
| Rooms.RoomMarker.SpawnedStaysSpawned | Common/Systems/NPCRoomSpawner.cs:201 | a call made after spawning issues nothing and keeps the flag set |
| Rooms.RoomMarker.CompletedCallIsFinal | Common/Systems/NPCRoomSpawner.cs:226-231 | the flag is set exactly when it was set or the call completes; after a completed call, any later call issues nothing |
| Rooms.RoomMarker.FailedCallRespawns | Common/Systems/NPCRoomSpawner.cs:227-231 | a call that throws leaves the flag false, so the next call runs the spawn loop again from the first entry; a missing key spawns nothing |
| Rooms.RoomMarker.CompletedCallPositions | Common/Systems/NPCRoomSpawner.cs:204 | a completed first call issues one spawn per stored entry, in order, at x = (Left + OffsetX)×16 and y = (Top + a_height − OffsetY)×16 or (Top + OffsetY)×16, with each entry's resolved type |
| RoomSpawner.InternalNameIsSetupId | Common/Systems/NPCRoomSpawner.cs:122 | a name not starting with the biome name gets, in the table, the id `GetInternalRoomName` builds |
| RoomSpawner.PassConsistent | Common/Systems/NPCRoomSpawner.cs:85 | a marker listed twice keeps one flag through a pass |
| RoomSpawner.PassKeepsFired | Common/Systems/NPCRoomSpawner.cs:85 | a flag once set stays set through a player's pass |
| RoomSpawner.TickKeepsFired | Common/Systems/NPCRoomSpawner.cs:80-87 | a flag once set stays set through a whole tick |
| RoomSpawner.AllFiredPassIsSilent | Common/Systems/NPCRoomSpawner.cs:85 | when every marker has spawned, a pass issues nothing and changes nothing |
| RoomSpawner.AllFiredTickIsSilent | Common/Systems/NPCRoomSpawner.cs:80-87 | when every marker has spawned, a tick issues nothing and changes nothing |
| RoomSpawner.CompletedPassFiresInRange | Common/Systems/NPCRoomSpawner.cs:85 | after a pass that completes, every marker the player is in range of has spawned |
| RoomSpawner.CompletedTickFiresInRange | Common/Systems/NPCRoomSpawner.cs:80-87 | after a tick that completes, every marker some active player was in range of has spawned |
| RoomSpawner.PassFiresOnlyInRange | Common/Systems/NPCRoomSpawner.cs:182-186 | conversely, a marker unspawned before a pass and spawned after it was in the player's range |
| RoomSpawner.TickFiresOnlyInRange | Common/Systems/NPCRoomSpawner.cs:80-87 | conversely, a marker unspawned before a tick and spawned after it was in range of some active player |
| RoomSpawner.PassOutOfRangeIsSilent | Common/Systems/NPCRoomSpawner.cs:182-186 | when every marker in range has already spawned, a pass issues nothing and changes no flag |
| RoomSpawner.AfterThrowPassEnds | Common/Systems/NPCRoomSpawner.cs:85 | once a marker's update throws, the markers after it do nothing |
| RoomSpawner.AfterThrowTickEnds | Common/Systems/NPCRoomSpawner.cs:82-86 | once a pass throws, the players after it do nothing |
| RoomSpawner.UpdateMarkers | Common/Systems/NPCRoomSpawner.cs:85 | the `foreach` over the markers issues the specified pass and leaves each marker with the specified flag |
| RoomSpawner.UpdateAt | Common/Systems/NPCRoomSpawner.cs:85 | one marker's update is one step of the specified pass |
| RoomSpawner.RoomKeyInjective | Common/Systems/NPCRoomSpawner.cs:95-97 | two `Room{i}_…` keys are equal only for the same index and suffix |
| RoomSpawner.CountKeyIsNotRoomKey | Common/Systems/NPCRoomSpawner.cs:91-97 | no marker key is the count key |
| RoomSpawner.SaveKeysDistinct | Common/Systems/NPCRoomSpawner.cs:91-97 | all keys written by one save are distinct |
| RoomSpawner.SaveEntriesCount | Common/Systems/NPCRoomSpawner.cs:91-98 | writing the markers keeps the count under the count key |
| RoomSpawner.SaveEntriesAt | Common/Systems/NPCRoomSpawner.cs:92-98 | the saved tag holds marker i's anchor, name and flag under its three keys |
| RoomSpawner.SaveLoadRoundTrip | Common/Systems/NPCRoomSpawner.cs:89-117 | loading what was saved gives back every marker's anchor, name and flag, in order |
| RoomSpawner.EmptyTagLoadsNothing | Common/Systems/NPCRoomSpawner.cs:104-109 | a tag without a positive count loads nothing |
| RoomSpawner.LoadMarker | Common/Systems/NPCRoomSpawner.cs:112-115 | a new marker with the stored anchor, name and flag (defaults for missing keys) and size 0 |
| RoomSpawner.NpcRoomSpawner.constructor | Common/Systems/NPCRoomSpawner.cs:21-26 | no markers and an empty table |
| RoomSpawner.NpcRoomSpawner.SetupJson | Common/Systems/NPCRoomSpawner.cs:31-79 | publishes the specified table, or returns its exception and leaves the table unchanged |
| RoomSpawner.NpcRoomSpawner.PostUpdateNPCs | Common/Systems/NPCRoomSpawner.cs:80-87 | issues the specified tick's spawns and leaves each marker with the tick's flag; a marker that had spawned before the tick still has |
| RoomSpawner.NpcRoomSpawner.SaveWorldData | Common/Systems/NPCRoomSpawner.cs:89-99 | the tag holds the count and each marker's anchor, name and flag under positional keys |
| RoomSpawner.NpcRoomSpawner.LoadWorldData | Common/Systems/NPCRoomSpawner.cs:100-117 | appends the stored markers in order after the existing ones, which stay; a count ≤ 0 changes nothing; loaded markers are new and have size 0 |

## Left out

- **Reading the configuration.** The JSON file, its deserialization and `JsonUtil.GetItem` are not part of this model. The input is the parsed tree, with `None` for an absent field: a null `Name` or `BiomeName`, or an absent `NameOrType` or offset, which then takes its default.
- **The structure library.** `StructureHelper.Generator.GetDimensions` is a map from room name to size. A name the map lacks plays the exception that `Size` catches.
- **Engine calls.**
  - `NPC.NewNPC` is recorded as a spawn event.
  - `NPCID.Search` and the mod's NPC lookup are two maps from name to type.
  - `Main.player` and `Main.maxPlayers` become the sequence of player slots given to `PostUpdateNPCs`.
  - Logging is dropped: it has no effect on state.
- Decimal.ParseInt: a simplified `int.TryParse`. It takes an optional sign and at least one decimal digit within the 32-bit range. The leading and trailing white space that `NumberStyles.Integer` allows, and culture-dependent sign symbols, are not modelled.
- **Positions.**
  - Player positions and `LOAD_RANGE` are exact reals, not 32-bit floats, so float rounding near the edges is not modelled.
  - The 32-bit wrap-around of the integer bound arithmetic (`Left*16`, `(Left + OffsetX)*16`) is not modelled: the integers are unbounded.
- **String comparison.** `StartsWith` is a plain prefix test, without .NET's culture-sensitive comparison.
- **The tag compound.**
  - It is a map from key to value.
  - `SaveWorldData` starts from the empty tag the engine hands it, so the duplicate-key exception of `TagCompound.Add` cannot arise.
  - A value of the wrong type reads as the default, as a missing key does.
  - A missing name reads as the empty string rather than null. The empty string is never a table id (`SpawnTable.EmptyIdNeverStored`), so such a marker's spawn call throws key-not-found. In .NET the null key makes the dictionary throw `ArgumentNullException` instead: the call still ends with an exception, but of a different type.
- **Static fields.**
  - `RoomInfo` starts as the empty table rather than null, so a spawn call before setup throws key-not-found instead of a null-reference exception.
  - `RoomMarkers` is a field of the `NpcRoomSpawner` object.
  - `LoadWorldData`'s `??=` re-creation of a null list is not modelled: the list is never null here.
- **`a_width` and `a_height`** are constants. Within this file they are written only by the sized constructor.
- **DidSpawns** is set through its `init` accessor in `LoadWorldData`. The model assigns it right after construction (`LoadMarker`).
- Decimal.IntToString: states only that its text is non-empty and where the sign is. Its digits are stated through `Decimal.ParseIntToString`.
