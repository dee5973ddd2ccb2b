/**
 * `RoomMarker`: one placed room. Its anchor and name never change; its
 * bounds come from the structure library's dimensions of the room; its
 * one-shot `didSpawns` flag goes from false to true once the room's spawn
 * list has been spawned.
 */
module Rooms {
  import opened Wrappers
  import opened SpawnTypes
  import NpcTypes

  /** How far outside a room's bounds, in world units (32 tiles), a player triggers it. */
  const LoadRange: real := 512.0

  /**
   * The structure library's answer to `GetDimensions(name)`: the extent of
   * each room it knows; for a name it lacks the call throws.
   */
  type Dimensions = map<string, Point16>

  /** The spawns one spawn call issued, in order, and how the call ended. */
  datatype SpawnRun = SpawnRun(events: seq<SpawnEvent>, outcome: Outcome)

  /** A spawn call on a marker: what it issued, how it ended, and the flag afterwards. */
  datatype MarkerRun = MarkerRun(events: seq<SpawnEvent>, outcome: Outcome, didSpawns: bool)

  /** C#'s `int / 2`, which truncates toward zero. */
  function HalfTowardZero(w: int): (h: int)
    // half of w, rounded toward zero: the sign of w and at most one off twice h
    ensures w >= 0 ==> 0 <= h && 0 <= w - 2 * h <= 1
    ensures w < 0 ==> h <= 0 && 0 <= 2 * h - w <= 1
  {
    if w >= 0 then w / 2 else -((-w) / 2)
  }

  /** World x of an entry's spawn: the room's left edge plus the entry's offset, in world units. */
  function SpawnX(left: int, e: NpcSpawnInfo): int {
    (left + e.offsetX) * 16
  }

  /**
   * World y of an entry's spawn: measured down from the top edge
   * (`HandleSpawns`), or up from `top + height` (`a_HandleSpawns`).
   */
  function SpawnY(top: int, height: int, fromBottom: bool, e: NpcSpawnInfo): int {
    if fromBottom then (top + height - e.offsetY) * 16 else (top + e.offsetY) * 16
  }

  /**
   * The loop of a spawn call over the first n entries: for each entry in
   * order, read its NPC type and spawn it; the first entry whose type cannot
   * be found throws and ends the loop. Each type is read on a copy of the
   * stored entry, so the cache the read fills in is dropped.
   */
  function SpawnPass(npcs: seq<NpcSpawnInfo>, n: nat, left: int, top: int, height: int, fromBottom: bool, regs: Registries): SpawnRun
    requires n <= |npcs|
  {
    if n == 0 then SpawnRun([], Completed)
    else
      var r := SpawnPass(npcs, n - 1, left, top, height, fromBottom, regs);
      if r.outcome.Threw? then r
      else match NpcTypes.ResolveType(npcs[n - 1], regs).npcType
        case Failure(e) => SpawnRun(r.events, Threw(e))
        case Success(t) => SpawnRun(r.events + [SpawnEvent(t, SpawnX(left, npcs[n - 1]), SpawnY(top, height, fromBottom, npcs[n - 1]))], Completed)
  }

  /**
   * A spawn pass issues one spawn per entry, in order, at the entry's
   * position and with its resolved type, up to the first entry whose type
   * is not found; it completes exactly when every entry resolves, and
   * otherwise throws that entry's exception.
   */
  lemma {:induction false} SpawnPassEvents(npcs: seq<NpcSpawnInfo>, n: nat, left: int, top: int, height: int, fromBottom: bool, regs: Registries)
    requires n <= |npcs|
    ensures var r := SpawnPass(npcs, n, left, top, height, fromBottom, regs);
      && |r.events| <= n
      && (forall j :: 0 <= j < |r.events| ==>
            NpcTypes.ResolveType(npcs[j], regs).npcType.Success?
            && r.events[j] == SpawnEvent(NpcTypes.ResolveType(npcs[j], regs).npcType.value,
                                         SpawnX(left, npcs[j]), SpawnY(top, height, fromBottom, npcs[j])))
      && (r.outcome.Completed? <==> |r.events| == n)
      && (r.outcome.Threw? ==> NpcTypes.ResolveType(npcs[|r.events|], regs).npcType == Failure(r.outcome.error))
  {
    if n > 0 {
      SpawnPassEvents(npcs, n - 1, left, top, height, fromBottom, regs);
    }
  }

  /** Once a spawn pass has thrown, the entries after it do nothing. */
  lemma {:induction false} SpawnPassAfterThrow(npcs: seq<NpcSpawnInfo>, n: nat, left: int, top: int, height: int, fromBottom: bool, regs: Registries)
    requires n <= |npcs| && SpawnPass(npcs, n, left, top, height, fromBottom, regs).outcome.Threw?
    ensures SpawnPass(npcs, |npcs|, left, top, height, fromBottom, regs) == SpawnPass(npcs, n, left, top, height, fromBottom, regs)
    decreases |npcs| - n
  {
    if n < |npcs| {
      SpawnPassAfterThrow(npcs, n + 1, left, top, height, fromBottom, regs);
    }
  }

  class RoomMarker {
    /** Top-left tile of the room. */
    const anchor: Point
    /** The room id, used for both the dimension lookup and the spawn table. */
    const roomName: string
    /** Width and height in tiles given at placement (`a_width`, `a_height`); 0 unless given. */
    const aWidth: UShort
    const aHeight: UShort
    /** Whether this room's spawns have been issued. */
    var didSpawns: bool

    constructor (position: Point, name: string)
      ensures anchor == position && roomName == name
      ensures aWidth == 0 && aHeight == 0 && !didSpawns
    {
      anchor := position;
      roomName := name;
      aWidth, aHeight := 0, 0;
      didSpawns := false;
    }

    constructor FromTile(i: int, j: int, name: string)
      ensures anchor == Point(i, j) && roomName == name
      ensures aWidth == 0 && aHeight == 0 && !didSpawns
    {
      anchor := Point(i, j);
      roomName := name;
      aWidth, aHeight := 0, 0;
      didSpawns := false;
    }

    constructor WithSize(position: Point, name: string, tileWidth: UShort, tileHeight: UShort)
      ensures anchor == position && roomName == name
      ensures aWidth == tileWidth && aHeight == tileHeight && !didSpawns
    {
      anchor := position;
      roomName := name;
      aWidth, aHeight := tileWidth, tileHeight;
      didSpawns := false;
    }

    /**
     * `GetInternalRoomName`: the id a room named `roomName` gets in `biome`,
     * the biome name, an underscore, then the room name. Given the biome, the
     * room name can be read back; the pair itself cannot, since "a_b" with "c"
     * and "a" with "b_c" give the same id.
     */
    static function InternalRoomName(biome: string, roomName: string): (id: string)
      ensures |id| == |biome| + 1 + |roomName|
      ensures biome <= id && id[|biome|] == '_' && id[|biome| + 1..] == roomName
    {
      biome + "_" + roomName
    }

    /** The room's extent from the structure library; (0, 0) when the lookup throws. */
    function Size(dims: Dimensions): (s: Point16)
      ensures roomName in dims ==> s == dims[roomName]
      ensures roomName !in dims ==> s == Point16(0, 0)
    {
      if roomName in dims then dims[roomName] else Point16(0, 0)
    }

    function Width(dims: Dimensions): Short { Size(dims).x }
    function Height(dims: Dimensions): Short { Size(dims).y }
    function Left(): int { anchor.x }
    function Top(): int { anchor.y }
    function Right(dims: Dimensions): int { anchor.x + Width(dims) }
    function Bottom(dims: Dimensions): int { anchor.y + Height(dims) }

    function Center(dims: Dimensions): Point {
      Point(anchor.x + HalfTowardZero(Width(dims)), anchor.y + HalfTowardZero(Height(dims)))
    }

    /** Whether a world position lies strictly inside the bounds, in world units, widened by the load range. */
    predicate InRange(pos: Vec2, dims: Dimensions) {
      && (Left() * 16) as real - LoadRange < pos.x
      && pos.x < (Right(dims) * 16) as real + LoadRange
      && (Top() * 16) as real - LoadRange < pos.y
      && pos.y < (Bottom(dims) * 16) as real + LoadRange
    }

    /** `RoomInfo[RoomName]`: the room's spawn list, or the indexer's KeyNotFoundException. */
    function GetNpcSpawns(table: Table): (r: Result<RoomSpawnInfo, Exception>)
      ensures r.Success? <==> roomName in table
      ensures r.Success? ==> r.value == table[roomName]
      ensures r.Failure? ==> r.error == KeyNotFound(roomName)
    {
      if roomName in table then Success(table[roomName]) else Failure(KeyNotFound(roomName))
    }

    /** `RoomInfo.TryGetValue(RoomName, out info)`: the spawn list if present. */
    function TryGetNpcSpawns(table: Table): (r: Option<RoomSpawnInfo>)
      ensures r.Some? <==> roomName in table
      ensures r.Some? ==> r.value == table[roomName]
    {
      if roomName in table then Some(table[roomName]) else None
    }

    /**
     * A spawn call (`HandleSpawns` with `fromBottom` false, `a_HandleSpawns`
     * with it true) made while the flag is `did`: nothing when already
     * spawned; otherwise the room's spawn list is looked up and spawned, and
     * the flag is set only when the whole call completes.
     */
    function SpawnSpec(did: bool, fromBottom: bool, table: Table, regs: Registries): MarkerRun {
      if did then MarkerRun([], Completed, true)
      else match GetNpcSpawns(table)
        case Failure(e) => MarkerRun([], Threw(e), false)
        case Success(info) =>
          var p := SpawnPass(info.npcs, |info.npcs|, Left(), Top(), aHeight, fromBottom, regs);
          MarkerRun(p.events, p.outcome, p.outcome.Completed?)
    }

    /** `Update`: a player at `pos` in range makes the marker run `a_HandleSpawns`. */
    function UpdateSpec(did: bool, pos: Vec2, dims: Dimensions, table: Table, regs: Registries): MarkerRun {
      if InRange(pos, dims) then SpawnSpec(did, true, table, regs) else MarkerRun([], Completed, did)
    }

    /** The spawn loop both spawn calls share, over this room's stored entries. */
    method RunSpawns(npcs: seq<NpcSpawnInfo>, fromBottom: bool, regs: Registries) returns (run: SpawnRun)
      ensures run == SpawnPass(npcs, |npcs|, Left(), Top(), aHeight, fromBottom, regs)
    {
      var events: seq<SpawnEvent> := [];
      var outcome := Completed;
      var k := 0;
      while k < |npcs| && outcome.Completed?
        invariant 0 <= k <= |npcs|
        invariant SpawnPass(npcs, k, Left(), Top(), aHeight, fromBottom, regs) == SpawnRun(events, outcome)
      {
        var info := npcs[k];
        // the getter caches into `info`, a copy: the stored entry never sees it
        var resolved := NpcTypes.ResolveType(info, regs);
        match resolved.npcType {
          case Failure(e) =>
            outcome := Threw(e);
          case Success(t) =>
            var x := (Left() + info.offsetX) * 16;
            var y := if fromBottom then (Top() + aHeight - info.offsetY) * 16 else (Top() + info.offsetY) * 16;
            events := events + [SpawnEvent(t, x, y)];
        }
        k := k + 1;
      }
      if outcome.Threw? {
        SpawnPassAfterThrow(npcs, k, Left(), Top(), aHeight, fromBottom, regs);
      }
      run := SpawnRun(events, outcome);
    }

    /** `HandleSpawns`: spawns measured down from the top edge; not called by `Update`. */
    method HandleSpawns(table: Table, regs: Registries) returns (run: SpawnRun)
      modifies this
      ensures var s := SpawnSpec(old(didSpawns), false, table, regs);
        run == SpawnRun(s.events, s.outcome) && didSpawns == s.didSpawns
    {
      if didSpawns {
        return SpawnRun([], Completed);
      }
      if roomName !in table {
        return SpawnRun([], Threw(KeyNotFound(roomName)));
      }
      run := RunSpawns(table[roomName].npcs, false, regs);
      if run.outcome.Threw? {
        return;
      }
      didSpawns := true;
    }

    /** `a_HandleSpawns`: spawns whose Y offset is measured up from `Top + a_height`. */
    method AHandleSpawns(table: Table, regs: Registries) returns (run: SpawnRun)
      modifies this
      ensures var s := SpawnSpec(old(didSpawns), true, table, regs);
        run == SpawnRun(s.events, s.outcome) && didSpawns == s.didSpawns
    {
      if didSpawns {
        return SpawnRun([], Completed);
      }
      if roomName !in table {
        return SpawnRun([], Threw(KeyNotFound(roomName)));
      }
      run := RunSpawns(table[roomName].npcs, true, regs);
      if run.outcome.Threw? {
        return;
      }
      didSpawns := true;
    }

    /** `Update(playerIndex)` for a player whose center is `pos`. */
    method Update(pos: Vec2, dims: Dimensions, table: Table, regs: Registries) returns (run: SpawnRun)
      modifies this
      ensures var s := UpdateSpec(old(didSpawns), pos, dims, table, regs);
        run == SpawnRun(s.events, s.outcome) && didSpawns == s.didSpawns
    {
      if InRange(pos, dims) {
        run := AHandleSpawns(table, regs);
      } else {
        run := SpawnRun([], Completed);
      }
    }

    // ------------------------------------------------------------ bounds

    /** When the dimension lookup throws, the room is a point: every bound is the anchor. */
    lemma FailedLookupCollapses(dims: Dimensions)
      requires roomName !in dims
      ensures Width(dims) == 0 && Height(dims) == 0
      ensures Left() == Right(dims) == anchor.x && Top() == Bottom(dims) == anchor.y
      ensures Center(dims) == anchor
    {
    }

    /**
     * The center lies between the edges, at half the extent rounded toward
     * the anchor (C#'s truncating division), on each axis and for either sign.
     */
    lemma CenterBetweenEdges(dims: Dimensions)
      ensures var c := Center(dims);
        && (Width(dims) >= 0 ==> Left() <= c.x <= Right(dims) && 0 <= Width(dims) - 2 * (c.x - Left()) <= 1)
        && (Width(dims) < 0 ==> Right(dims) <= c.x <= Left() && 0 <= 2 * (c.x - Left()) - Width(dims) <= 1)
        && (Height(dims) >= 0 ==> Top() <= c.y <= Bottom(dims) && 0 <= Height(dims) - 2 * (c.y - Top()) <= 1)
        && (Height(dims) < 0 ==> Bottom(dims) <= c.y <= Top() && 0 <= 2 * (c.y - Top()) - Height(dims) <= 1)
    {
    }

    /**
     * For a room of non-negative extent, a position is in range exactly when
     * its distance to the room's world-unit bounds is under the load range
     * on each axis.
     */
    lemma InRangeByDistance(pos: Vec2, dims: Dimensions)
      requires Width(dims) >= 0 && Height(dims) >= 0
      ensures InRange(pos, dims) <==>
        && Gap(pos.x, (Left() * 16) as real, (Right(dims) * 16) as real) < LoadRange
        && Gap(pos.y, (Top() * 16) as real, (Bottom(dims) * 16) as real) < LoadRange
    {
    }

    /** A position exactly on the widened boundary is out of range, on each of the four sides. */
    lemma WidenedEdgeExcluded(pos: Vec2, dims: Dimensions)
      requires || pos.x == (Left() * 16) as real - LoadRange
               || pos.x == (Right(dims) * 16) as real + LoadRange
               || pos.y == (Top() * 16) as real - LoadRange
               || pos.y == (Bottom(dims) * 16) as real + LoadRange
      ensures !InRange(pos, dims)
    {
    }

    /** With the lookup failing, the range is the open square of half-side 512 around the anchor. */
    lemma CollapsedRange(pos: Vec2, dims: Dimensions)
      requires roomName !in dims
      ensures InRange(pos, dims) <==>
        Gap(pos.x, (anchor.x * 16) as real, (anchor.x * 16) as real) < LoadRange
        && Gap(pos.y, (anchor.y * 16) as real, (anchor.y * 16) as real) < LoadRange
    {
    }

    // ------------------------------------------------------ spawn calls

    /** `GetNPCSpawns` throws exactly when `TryGetNPCSpawns` reports absence, and otherwise they agree. */
    lemma GetAndTryGetAgree(table: Table)
      ensures GetNpcSpawns(table).Success? <==> TryGetNpcSpawns(table).Some?
      ensures GetNpcSpawns(table).Success? ==> GetNpcSpawns(table).value == TryGetNpcSpawns(table).value
    {
    }

    /** The flag never goes back: a call made after spawning emits nothing and keeps it set. */
    lemma SpawnedStaysSpawned(fromBottom: bool, table: Table, regs: Registries)
      ensures SpawnSpec(true, fromBottom, table, regs) == MarkerRun([], Completed, true)
    {
    }

    /**
     * A call sets the flag exactly when it completes; once it has, any later
     * call, whatever the table and registries, emits nothing.
     */
    lemma CompletedCallIsFinal(did: bool, fromBottom: bool, table: Table, regs: Registries,
                               fromBottom2: bool, table2: Table, regs2: Registries)
      ensures var r := SpawnSpec(did, fromBottom, table, regs);
        && (r.didSpawns <==> did || r.outcome.Completed?)
        && (r.outcome.Completed? ==> SpawnSpec(r.didSpawns, fromBottom2, table2, regs2) == MarkerRun([], Completed, true))
    {
    }

    /**
     * A call that throws (missing room id, or an NPC type not found) leaves
     * the flag false, and a missing room id throws before any spawn. Because
     * the flag stays false, the next call runs the spawn loop again from the
     * first entry; the last clause records that with the same table and
     * registries it issues the same spawns again.
     */
    lemma FailedCallRespawns(fromBottom: bool, table: Table, regs: Registries)
      ensures var r := SpawnSpec(false, fromBottom, table, regs);
        r.outcome.Threw? ==>
          && !r.didSpawns
          && (r.outcome.error.KeyNotFound? ==> roomName !in table && r.events == [])
          && SpawnSpec(r.didSpawns, fromBottom, table, regs).events == r.events
    {
      if roomName in table {
        SpawnPassEvents(table[roomName].npcs, |table[roomName].npcs|, Left(), Top(), aHeight, fromBottom, regs);
      }
    }

    /**
     * A completed first call issues exactly one spawn per entry of the room's
     * stored spawn list, in order, at x = (Left + OffsetX) * 16 and
     * y = (Top + a_height - OffsetY) * 16 for `a_HandleSpawns` or
     * (Top + OffsetY) * 16 for `HandleSpawns`.
     */
    lemma CompletedCallPositions(fromBottom: bool, table: Table, regs: Registries)
      requires SpawnSpec(false, fromBottom, table, regs).outcome.Completed?
      ensures roomName in table
      ensures var r := SpawnSpec(false, fromBottom, table, regs);
        var npcs := table[roomName].npcs;
        && |r.events| == |npcs|
        && forall j :: 0 <= j < |npcs| ==>
          && r.events[j].x == (Left() + npcs[j].offsetX) * 16
          && r.events[j].y == (if fromBottom then (Top() + aHeight - npcs[j].offsetY) * 16
                               else (Top() + npcs[j].offsetY) * 16)
          && NpcTypes.ResolveType(npcs[j], regs).npcType == Success(r.events[j].npcType)
    {
      var npcs := table[roomName].npcs;
      SpawnPassEvents(npcs, |npcs|, Left(), Top(), aHeight, fromBottom, regs);
    }
  }

  /** The distance from `v` to the interval [lo, hi]. */
  function Gap(v: real, lo: real, hi: real): real {
    if v < lo then lo - v else if v > hi then v - hi else 0.0
  }
}
