/** Values shared by the spawn table, the room markers and the spawner system. */
module SpawnTypes {
  import opened Wrappers

  /** C#'s `ushort` (the JSON offsets) and `short` (the fields of a `Point16`). */
  type UShort = x: int | 0 <= x < 0x1_0000
  type Short = x: int | -0x8000 <= x < 0x8000

  /** A tile coordinate (`Point`). */
  datatype Point = Point(x: int, y: int)

  /** A room's extent in tiles as the structure library reports it (`Point16`). */
  datatype Point16 = Point16(x: Short, y: Short)

  /** A player's world position (`Vector2`), in world units (16 per tile). */
  datatype Vec2 = Vec2(x: real, y: real)

  /**
   * One spawn instruction of a room (`NPCSpawnInfo`): an NPC given by number
   * or by name, its tile offset inside the room, and the cached NPC type
   * that the `NPCType` getter fills in on success.
   */
  datatype NpcSpawnInfo = NpcSpawnInfo(nameOrType: string, offsetX: UShort, offsetY: UShort, npcType: Option<int>)

  /** The spawn list of one room (`RoomSpawnInfo`). */
  datatype RoomSpawnInfo = RoomSpawnInfo(roomName: string, npcs: seq<NpcSpawnInfo>)

  /** The spawn table: room id to spawn list (`NPCRoomSpawner.RoomInfo`). */
  type Table = map<string, RoomSpawnInfo>

  /** The name registries the NPC type lookup consults: vanilla NPC names, then the mod's NPCs. */
  datatype Registries = Registries(vanilla: map<string, int>, modded: map<string, int>)

  /** One call of the engine's spawn primitive `NPC.NewNPC(source, x, y, type)`. */
  datatype SpawnEvent = SpawnEvent(npcType: int, x: int, y: int)

  /** The exceptions the core can throw while spawning. */
  datatype Exception =
    | KeyNotFound(key: string)        // RoomInfo[RoomName] on a room id the table lacks
    | TypeNotFound(nameOrType: string) // the ArgumentException of NPCType

  /** How a call ended: normally, or by an exception that propagates to the caller. */
  datatype Outcome = Completed | Threw(error: Exception)
}
