/**
 * `NPCRoomSpawner`: the mod system that owns the placed room markers and the
 * spawn table. It builds the table at content setup, asks every marker to
 * update for every active player after each NPC update, and saves and loads
 * the markers with the world.
 */
module RoomSpawner {
  import opened Wrappers
  import opened SpawnTypes
  import Decimal
  import SpawnTable
  import opened Rooms

  /** A slot of the engine's player array: whether it is in use, and the player's center. */
  datatype Player = Player(active: bool, center: Vec2)

  /**
   * A pass or tick over the markers: spawns issued, how it ended, and the
   * flag of the marker at each list position afterwards.
   */
  datatype TickRun = TickRun(events: seq<SpawnEvent>, outcome: Outcome, flags: seq<bool>)

  /** A value stored in the world's tag compound. */
  datatype TagValue = IntTag(i: int) | PointTag(p: Point) | StringTag(s: string) | BoolTag(b: bool)
  type Tag = map<string, TagValue>

  /** What is saved of a marker. */
  datatype MarkerState = MarkerState(anchor: Point, roomName: string, didSpawns: bool)

  /**
   * A room placed with `GetInternalRoomName(biome, name)` carries the id the
   * spawn table gives a room of that name in that biome, whenever the name
   * does not already start with the biome name.
   */
  lemma InternalNameIsSetupId(biome: string, name: string, k: nat)
    requires name != "" && !(biome <= name)
    ensures SpawnTable.EffectiveRoomId(Some(biome), Some(name), k) == Success(RoomMarker.InternalRoomName(biome, name))
  {
  }

  // ------------------------------------------------------------------ tick

  /** The flag of the marker at each list position. */
  function Flags(ms: seq<RoomMarker>): (f: seq<bool>)
    reads ms
    ensures |f| == |ms|
  {
    seq(|ms|, k requires 0 <= k < |ms| reads ms => ms[k].didSpawns)
  }

  /** Flags in which every position holding marker m reads b (a marker may be listed twice). */
  function SetFlag(ms: seq<RoomMarker>, flags: seq<bool>, m: RoomMarker, b: bool): (f: seq<bool>)
    requires |flags| == |ms|
    ensures |f| == |ms|
  {
    seq(|ms|, k requires 0 <= k < |ms| => if ms[k] == m then b else flags[k])
  }

  /** Positions holding the same marker hold the same flag, as `Flags` of a heap always does. */
  ghost predicate Consistent(ms: seq<RoomMarker>, flags: seq<bool>)
    requires |flags| == |ms|
  {
    forall i, j | 0 <= i < |ms| && 0 <= j < |ms| && ms[i] == ms[j] :: flags[i] == flags[j]
  }

  /**
   * One player's pass over the first n markers, in list order: each marker
   * updates with the flag left by the markers before it (a marker listed
   * twice sees its own earlier update); an exception ends the pass.
   */
  function Pass(ms: seq<RoomMarker>, n: nat, pos: Vec2, flags: seq<bool>,
                dims: Dimensions, table: Table, regs: Registries): (r: TickRun)
    requires n <= |ms| == |flags|
    ensures |r.flags| == |ms|
  {
    if n == 0 then TickRun([], Completed, flags)
    else
      var r := Pass(ms, n - 1, pos, flags, dims, table, regs);
      if r.outcome.Threw? then r
      else
        var m := ms[n - 1];
        var u := m.UpdateSpec(r.flags[n - 1], pos, dims, table, regs);
        TickRun(r.events + u.events, u.outcome, SetFlag(ms, r.flags, m, u.didSpawns))
  }

  /**
   * `PostUpdateNPCs` over the first n player slots: each active player makes
   * a pass over all markers; an exception ends the tick.
   */
  function Tick(players: seq<Player>, n: nat, ms: seq<RoomMarker>, flags: seq<bool>,
                dims: Dimensions, table: Table, regs: Registries): (r: TickRun)
    requires n <= |players| && |flags| == |ms|
    ensures |r.flags| == |ms|
  {
    if n == 0 then TickRun([], Completed, flags)
    else
      var r := Tick(players, n - 1, ms, flags, dims, table, regs);
      if r.outcome.Threw? || !players[n - 1].active then r
      else
        var p := Pass(ms, |ms|, players[n - 1].center, r.flags, dims, table, regs);
        TickRun(r.events + p.events, p.outcome, p.flags)
  }

  /**
   * The flags of a heap are consistent: the bridge that lets the lemmas about
   * `Pass` and `Tick` speak of the markers' own flags, as `PostUpdateNPCs` does.
   */
  lemma FlagsConsistent(ms: seq<RoomMarker>)
    ensures Consistent(ms, Flags(ms))
  {
  }

  /** A pass keeps the flags consistent. */
  lemma {:induction false} PassConsistent(ms: seq<RoomMarker>, n: nat, pos: Vec2, flags: seq<bool>,
                                          dims: Dimensions, table: Table, regs: Registries)
    requires n <= |ms| == |flags| && Consistent(ms, flags)
    ensures Consistent(ms, Pass(ms, n, pos, flags, dims, table, regs).flags)
  {
    if n > 0 {
      PassConsistent(ms, n - 1, pos, flags, dims, table, regs);
    }
  }

  /** A marker's flag, once set, stays set through a player's pass. */
  lemma {:induction false} PassKeepsFired(ms: seq<RoomMarker>, n: nat, pos: Vec2, flags: seq<bool>,
                                          dims: Dimensions, table: Table, regs: Registries)
    requires n <= |ms| == |flags| && Consistent(ms, flags)
    ensures var r := Pass(ms, n, pos, flags, dims, table, regs);
      forall k | 0 <= k < |ms| && flags[k] :: r.flags[k]
  {
    if n > 0 {
      PassKeepsFired(ms, n - 1, pos, flags, dims, table, regs);
      PassConsistent(ms, n - 1, pos, flags, dims, table, regs);
      var r := Pass(ms, n - 1, pos, flags, dims, table, regs);
      var m := ms[n - 1];
      if r.outcome.Completed? && r.flags[n - 1] {
        m.SpawnedStaysSpawned(true, table, regs);
      }
    }
  }

  /** A marker's flag, once set, stays set through a whole tick: spawning is one-shot. */
  lemma {:induction false} TickKeepsFired(players: seq<Player>, n: nat, ms: seq<RoomMarker>, flags: seq<bool>,
                                          dims: Dimensions, table: Table, regs: Registries)
    requires n <= |players| && |flags| == |ms| && Consistent(ms, flags)
    ensures var r := Tick(players, n, ms, flags, dims, table, regs);
      Consistent(ms, r.flags) && forall k | 0 <= k < |ms| && flags[k] :: r.flags[k]
  {
    if n > 0 {
      TickKeepsFired(players, n - 1, ms, flags, dims, table, regs);
      var r := Tick(players, n - 1, ms, flags, dims, table, regs);
      if r.outcome.Completed? && players[n - 1].active {
        PassKeepsFired(ms, |ms|, players[n - 1].center, r.flags, dims, table, regs);
        PassConsistent(ms, |ms|, players[n - 1].center, r.flags, dims, table, regs);
      }
    }
  }

  /** When every marker has already spawned, a pass issues nothing and changes nothing. */
  lemma {:induction false} AllFiredPassIsSilent(ms: seq<RoomMarker>, n: nat, pos: Vec2, flags: seq<bool>,
                                                dims: Dimensions, table: Table, regs: Registries)
    requires n <= |ms| == |flags| && forall k | 0 <= k < |ms| :: flags[k]
    ensures Pass(ms, n, pos, flags, dims, table, regs) == TickRun([], Completed, flags)
  {
    if n > 0 {
      AllFiredPassIsSilent(ms, n - 1, pos, flags, dims, table, regs);
      assert SetFlag(ms, flags, ms[n - 1], true) == flags;
    }
  }

  /** When every marker has already spawned, a tick issues nothing and changes nothing. */
  lemma {:induction false} AllFiredTickIsSilent(players: seq<Player>, n: nat, ms: seq<RoomMarker>, flags: seq<bool>,
                                                dims: Dimensions, table: Table, regs: Registries)
    requires n <= |players| && |flags| == |ms| && forall k | 0 <= k < |ms| :: flags[k]
    ensures Tick(players, n, ms, flags, dims, table, regs) == TickRun([], Completed, flags)
  {
    if n > 0 {
      AllFiredTickIsSilent(players, n - 1, ms, flags, dims, table, regs);
      AllFiredPassIsSilent(ms, |ms|, players[n - 1].center, flags, dims, table, regs);
    }
  }

  /** A pass that completes leaves every marker in the player's range spawned. */
  lemma {:induction false} CompletedPassFiresInRange(ms: seq<RoomMarker>, n: nat, pos: Vec2, flags: seq<bool>,
                                                     dims: Dimensions, table: Table, regs: Registries)
    requires n <= |ms| == |flags|
    requires Pass(ms, n, pos, flags, dims, table, regs).outcome.Completed?
    ensures var r := Pass(ms, n, pos, flags, dims, table, regs);
      forall j | 0 <= j < n && ms[j].InRange(pos, dims) :: r.flags[j]
  {
    if n > 0 {
      var r := Pass(ms, n - 1, pos, flags, dims, table, regs);
      CompletedPassFiresInRange(ms, n - 1, pos, flags, dims, table, regs);
      var m := ms[n - 1];
      var u := m.UpdateSpec(r.flags[n - 1], pos, dims, table, regs);
      assert u.outcome.Completed? && m.InRange(pos, dims) ==> u.didSpawns;
    }
  }

  /**
   * A tick that completes leaves spawned every marker that some active
   * player was in range of.
   */
  lemma {:induction false} CompletedTickFiresInRange(players: seq<Player>, n: nat, ms: seq<RoomMarker>, flags: seq<bool>,
                                                     dims: Dimensions, table: Table, regs: Registries)
    requires n <= |players| && |flags| == |ms| && Consistent(ms, flags)
    requires Tick(players, n, ms, flags, dims, table, regs).outcome.Completed?
    ensures var r := Tick(players, n, ms, flags, dims, table, regs);
      forall i, j | 0 <= i < n && 0 <= j < |ms| && players[i].active && ms[j].InRange(players[i].center, dims) ::
        r.flags[j]
  {
    if n > 0 {
      var r := Tick(players, n - 1, ms, flags, dims, table, regs);
      CompletedTickFiresInRange(players, n - 1, ms, flags, dims, table, regs);
      if players[n - 1].active {
        TickKeepsFired(players, n - 1, ms, flags, dims, table, regs);
        PassKeepsFired(ms, |ms|, players[n - 1].center, r.flags, dims, table, regs);
        CompletedPassFiresInRange(ms, |ms|, players[n - 1].center, r.flags, dims, table, regs);
      }
    }
  }

  /**
   * The converse of CompletedPassFiresInRange, whether or not the pass
   * completes: a marker that was not spawned before the pass and is spawned
   * after it was in the player's range.
   */
  lemma {:induction false} PassFiresOnlyInRange(ms: seq<RoomMarker>, n: nat, pos: Vec2, flags: seq<bool>,
                                                dims: Dimensions, table: Table, regs: Registries)
    requires n <= |ms| == |flags| && Consistent(ms, flags)
    ensures var r := Pass(ms, n, pos, flags, dims, table, regs);
      forall k | 0 <= k < |ms| && !flags[k] && r.flags[k] :: ms[k].InRange(pos, dims)
  {
    if n > 0 {
      PassFiresOnlyInRange(ms, n - 1, pos, flags, dims, table, regs);
      PassConsistent(ms, n - 1, pos, flags, dims, table, regs);
      var r := Pass(ms, n - 1, pos, flags, dims, table, regs);
      if r.outcome.Completed? {
        var m := ms[n - 1];
        var u := m.UpdateSpec(r.flags[n - 1], pos, dims, table, regs);
        assert u.didSpawns && !r.flags[n - 1] ==> m.InRange(pos, dims);
      }
    }
  }

  /**
   * A pass in which every marker in the player's range has already spawned
   * issues nothing and changes nothing: markers out of range, and markers
   * already spawned, add no spawns.
   */
  lemma {:induction false} PassOutOfRangeIsSilent(ms: seq<RoomMarker>, n: nat, pos: Vec2, flags: seq<bool>,
                                                  dims: Dimensions, table: Table, regs: Registries)
    requires n <= |ms| == |flags| && Consistent(ms, flags)
    requires forall k | 0 <= k < n && ms[k].InRange(pos, dims) :: flags[k]
    ensures Pass(ms, n, pos, flags, dims, table, regs) == TickRun([], Completed, flags)
  {
    if n > 0 {
      PassOutOfRangeIsSilent(ms, n - 1, pos, flags, dims, table, regs);
      var m := ms[n - 1];
      if flags[n - 1] {
        m.SpawnedStaysSpawned(true, table, regs);
      }
      assert SetFlag(ms, flags, m, flags[n - 1]) == flags;
    }
  }

  /**
   * The converse of CompletedTickFiresInRange, whether or not the tick
   * completes: a marker that was not spawned before the tick and is spawned
   * after it was in range of some active player.
   */
  lemma {:induction false} TickFiresOnlyInRange(players: seq<Player>, n: nat, ms: seq<RoomMarker>, flags: seq<bool>,
                                                dims: Dimensions, table: Table, regs: Registries)
    requires n <= |players| && |flags| == |ms| && Consistent(ms, flags)
    ensures var r := Tick(players, n, ms, flags, dims, table, regs);
      forall k | 0 <= k < |ms| && !flags[k] && r.flags[k] ::
        exists i | 0 <= i < n :: players[i].active && ms[k].InRange(players[i].center, dims)
  {
    if n > 0 {
      TickFiresOnlyInRange(players, n - 1, ms, flags, dims, table, regs);
      var r := Tick(players, n - 1, ms, flags, dims, table, regs);
      if r.outcome.Completed? && players[n - 1].active {
        TickKeepsFired(players, n - 1, ms, flags, dims, table, regs);
        var c := players[n - 1].center;
        PassFiresOnlyInRange(ms, |ms|, c, r.flags, dims, table, regs);
        var p := Pass(ms, |ms|, c, r.flags, dims, table, regs);
        forall k | 0 <= k < |ms| && !flags[k] && p.flags[k]
          ensures exists i | 0 <= i < n :: players[i].active && ms[k].InRange(players[i].center, dims)
        {
          if !r.flags[k] {
            assert players[n - 1].active && ms[k].InRange(players[n - 1].center, dims);
          }
        }
      }
    }
  }

  /** Once a pass has thrown, the markers after it do nothing. */
  lemma {:induction false} AfterThrowPassEnds(ms: seq<RoomMarker>, n: nat, pos: Vec2, flags: seq<bool>,
                                              dims: Dimensions, table: Table, regs: Registries)
    requires n <= |ms| == |flags|
    requires Pass(ms, n, pos, flags, dims, table, regs).outcome.Threw?
    ensures Pass(ms, |ms|, pos, flags, dims, table, regs) == Pass(ms, n, pos, flags, dims, table, regs)
    decreases |ms| - n
  {
    if n < |ms| {
      AfterThrowPassEnds(ms, n + 1, pos, flags, dims, table, regs);
    }
  }

  /** Once a tick has thrown, the players after it do nothing. */
  lemma {:induction false} AfterThrowTickEnds(players: seq<Player>, n: nat, ms: seq<RoomMarker>, flags: seq<bool>,
                                              dims: Dimensions, table: Table, regs: Registries)
    requires n <= |players| && |flags| == |ms|
    requires Tick(players, n, ms, flags, dims, table, regs).outcome.Threw?
    ensures Tick(players, |players|, ms, flags, dims, table, regs) == Tick(players, n, ms, flags, dims, table, regs)
    decreases |players| - n
  {
    if n < |players| {
      AfterThrowTickEnds(players, n + 1, ms, flags, dims, table, regs);
    }
  }

  /** One player's pass, `foreach (RoomMarker marker in RoomMarkers) marker.Update(i)`; an exception ends it. */
  method UpdateMarkers(ms: seq<RoomMarker>, pos: Vec2, dims: Dimensions, table: Table, regs: Registries)
    returns (run: SpawnRun)
    modifies ms
    ensures var spec := Pass(ms, |ms|, pos, old(Flags(ms)), dims, table, regs);
      run == SpawnRun(spec.events, spec.outcome) && Flags(ms) == spec.flags
  {
    ghost var start := Flags(ms);
    var events: seq<SpawnEvent> := [];
    var outcome := Completed;
    var j := 0;
    while j < |ms| && outcome.Completed?
      invariant 0 <= j <= |ms|
      invariant Pass(ms, j, pos, start, dims, table, regs) == TickRun(events, outcome, Flags(ms))
    {
      var u := UpdateAt(ms, j, pos, dims, table, regs, start);
      events, outcome := events + u.events, u.outcome;
      j := j + 1;
    }
    if outcome.Threw? {
      AfterThrowPassEnds(ms, j, pos, start, dims, table, regs);
    }
    run := SpawnRun(events, outcome);
  }

  /** The update of the marker at position j, one step of a pass. */
  method UpdateAt(ms: seq<RoomMarker>, j: nat, pos: Vec2, dims: Dimensions, table: Table, regs: Registries,
                  ghost start: seq<bool>)
    returns (u: SpawnRun)
    requires j < |ms| == |start|
    requires Pass(ms, j, pos, start, dims, table, regs).outcome.Completed?
    requires Pass(ms, j, pos, start, dims, table, regs).flags == Flags(ms)
    modifies ms
    ensures var p := Pass(ms, j, pos, start, dims, table, regs);
      Pass(ms, j + 1, pos, start, dims, table, regs) == TickRun(p.events + u.events, u.outcome, Flags(ms))
  {
    var m := ms[j];
    ghost var f := Flags(ms);
    u := m.Update(pos, dims, table, regs);
    assert Flags(ms) == SetFlag(ms, f, m, m.didSpawns);
  }

  // ----------------------------------------------------------- persistence

  const CountKey: string := "RoomMarkers_Count"

  /** The key `Room{i}{suffix}`. */
  function RoomKey(i: nat, suffix: string): string {
    "Room" + Decimal.NatToString(i) + suffix
  }

  function XyKey(i: nat): string { RoomKey(i, "_XY") }
  function NameKey(i: nat): string { RoomKey(i, "_Name") }
  function DidKey(i: nat): string { RoomKey(i, "_DidSpawns") }

  /** `tag.Get<T>(key)`: the stored value, or `default(T)` when the key is missing. */
  function GetInt(tag: Tag, key: string): int {
    if key in tag && tag[key].IntTag? then tag[key].i else 0
  }
  function GetPoint(tag: Tag, key: string): Point {
    if key in tag && tag[key].PointTag? then tag[key].p else Point(0, 0)
  }
  function GetString(tag: Tag, key: string): string {
    if key in tag && tag[key].StringTag? then tag[key].s else ""
  }
  function GetBool(tag: Tag, key: string): bool {
    if key in tag && tag[key].BoolTag? then tag[key].b else false
  }

  function StateOf(m: RoomMarker): MarkerState
    reads m
  {
    MarkerState(m.anchor, m.roomName, m.didSpawns)
  }

  /** What is saved of each marker, in list order. */
  function States(ms: seq<RoomMarker>): (s: seq<MarkerState>)
    reads ms
    ensures |s| == |ms|
    decreases |ms|
  {
    if ms == [] then [] else States(ms[..|ms| - 1]) + [StateOf(ms[|ms| - 1])]
  }

  /** `base` with the three keys of each of the first n markers added. */
  function SaveEntries(base: Tag, s: seq<MarkerState>, n: nat): Tag
    requires n <= |s|
  {
    if n == 0 then base
    else
      var i := n - 1;
      SaveEntries(base, s, i)[XyKey(i) := PointTag(s[i].anchor)]
                             [NameKey(i) := StringTag(s[i].roomName)]
                             [DidKey(i) := BoolTag(s[i].didSpawns)]
  }

  /** The tag `SaveWorldData` writes: the count, then anchor, name and flag of each marker by position. */
  function SavedTag(s: seq<MarkerState>): Tag {
    SaveEntries(map[CountKey := IntTag(|s|)], s, |s|)
  }

  /** The markers `LoadWorldData` appends for a tag: none unless the stored count is positive. */
  function LoadedStates(tag: Tag): seq<MarkerState> {
    var count := GetInt(tag, CountKey);
    if count <= 0 then [] else LoadEntries(tag, count)
  }

  /** The marker stored at index i, each value read with the `Get` defaults. */
  function LoadedAt(tag: Tag, i: nat): MarkerState {
    MarkerState(GetPoint(tag, XyKey(i)), GetString(tag, NameKey(i)), GetBool(tag, DidKey(i)))
  }

  /** The first `count` stored markers. */
  function LoadEntries(tag: Tag, count: nat): (s: seq<MarkerState>)
    ensures |s| == count
  {
    seq(count, i requires 0 <= i < count => LoadedAt(tag, i))
  }

  lemma LoadEntriesSnoc(tag: Tag, i: nat)
    ensures LoadEntries(tag, i + 1) == LoadEntries(tag, i) + [LoadedAt(tag, i)]
  {
  }

  /** `new RoomMarker(anchor, name) { DidSpawns = didSpawns }` from the values stored at index i. */
  method LoadMarker(tag: Tag, i: nat) returns (marker: RoomMarker)
    ensures fresh(marker) && StateOf(marker) == LoadedAt(tag, i)
    ensures marker.aWidth == 0 && marker.aHeight == 0
  {
    var anchor := GetPoint(tag, XyKey(i));
    var name := GetString(tag, NameKey(i));
    var didSpawns := GetBool(tag, DidKey(i));
    marker := new RoomMarker(anchor, name);
    marker.didSpawns := didSpawns;
  }

  /** Two keys `Room{i}_…` are equal only for the same index and the same suffix. */
  lemma RoomKeyInjective(i: nat, j: nat, s1: string, s2: string)
    requires |s1| > 0 && |s2| > 0 && s1[0] == '_' && s2[0] == '_'
    ensures RoomKey(i, s1) == RoomKey(j, s2) ==> i == j && s1 == s2
  {
    var a, b := Decimal.NatToString(i), Decimal.NatToString(j);
    var k1, k2 := RoomKey(i, s1), RoomKey(j, s2);
    assert k1[4 + |a|] == s1[0] && k2[4 + |b|] == s2[0];
    assert |a| < |b| ==> k2[4 + |a|] == b[|a|];
    assert |b| < |a| ==> k1[4 + |b|] == a[|b|];
    if k1 == k2 && |a| == |b| {
      assert a == k1[4..4 + |a|] && b == k2[4..4 + |b|];
      Decimal.NatToStringInjective(i, j);
      assert s1 == k1[4 + |a|..] && s2 == k2[4 + |b|..];
    }
  }

  /** No `Room{i}_…` key is the count key. */
  lemma CountKeyIsNotRoomKey(i: nat, suffix: string)
    ensures RoomKey(i, suffix) != CountKey
  {
    var a := Decimal.NatToString(i);
    assert RoomKey(i, suffix)[4] == a[0];
    assert CountKey[4] == 'M';
  }

  /** The keys written for marker k differ from the count key and from the keys of every other marker. */
  lemma SaveKeysDistinct(k: nat)
    ensures CountKey != XyKey(k) && CountKey != NameKey(k) && CountKey != DidKey(k)
    ensures XyKey(k) != NameKey(k) && XyKey(k) != DidKey(k) && NameKey(k) != DidKey(k)
    ensures forall i: nat | i != k ::
      && XyKey(i) != XyKey(k) && XyKey(i) != NameKey(k) && XyKey(i) != DidKey(k)
      && NameKey(i) != XyKey(k) && NameKey(i) != NameKey(k) && NameKey(i) != DidKey(k)
      && DidKey(i) != XyKey(k) && DidKey(i) != NameKey(k) && DidKey(i) != DidKey(k)
  {
    OwnKeysDiffer(k);
    forall i: nat | i != k {
      OtherIndexKeysDiffer(i, k);
    }
    CountKeyIsNotRoomKey(k, "_XY");
    CountKeyIsNotRoomKey(k, "_Name");
    CountKeyIsNotRoomKey(k, "_DidSpawns");
  }

  /** The three keys of one marker differ from each other. */
  lemma OwnKeysDiffer(k: nat)
    ensures XyKey(k) != NameKey(k) && XyKey(k) != DidKey(k) && NameKey(k) != DidKey(k)
  {
    var sfx := ["_XY", "_Name", "_DidSpawns"];
    forall x, y | 0 <= x < y < 3
      ensures RoomKey(k, sfx[x]) != RoomKey(k, sfx[y])
    {
      RoomKeyInjective(k, k, sfx[x], sfx[y]);
    }
  }

  /** No key of marker i is a key of another marker k. */
  lemma OtherIndexKeysDiffer(i: nat, k: nat)
    requires i != k
    ensures XyKey(i) != XyKey(k) && XyKey(i) != NameKey(k) && XyKey(i) != DidKey(k)
    ensures NameKey(i) != XyKey(k) && NameKey(i) != NameKey(k) && NameKey(i) != DidKey(k)
    ensures DidKey(i) != XyKey(k) && DidKey(i) != NameKey(k) && DidKey(i) != DidKey(k)
  {
    var sfx := ["_XY", "_Name", "_DidSpawns"];
    forall x, y | 0 <= x < 3 && 0 <= y < 3
      ensures RoomKey(i, sfx[x]) != RoomKey(k, sfx[y])
    {
      RoomKeyInjective(i, k, sfx[x], sfx[y]);
    }
    assert XyKey(i) == RoomKey(i, sfx[0]) && NameKey(i) == RoomKey(i, sfx[1]) && DidKey(i) == RoomKey(i, sfx[2]);
    assert XyKey(k) == RoomKey(k, sfx[0]) && NameKey(k) == RoomKey(k, sfx[1]) && DidKey(k) == RoomKey(k, sfx[2]);
  }

  /** The saved entries keep the count key of `base`. */
  lemma {:induction false} SaveEntriesCount(base: Tag, s: seq<MarkerState>, n: nat)
    requires n <= |s| && CountKey in base
    ensures CountKey in SaveEntries(base, s, n) && SaveEntries(base, s, n)[CountKey] == base[CountKey]
    decreases n
  {
    if n > 0 {
      SaveEntriesCount(base, s, n - 1);
      SaveKeysDistinct(n - 1);
    }
  }

  /** The saved entries hold marker i's anchor, name and flag under its three keys. */
  lemma {:induction false} SaveEntriesAt(base: Tag, s: seq<MarkerState>, n: nat, i: nat)
    requires i < n <= |s|
    ensures var t := SaveEntries(base, s, n);
      && XyKey(i) in t && t[XyKey(i)] == PointTag(s[i].anchor)
      && NameKey(i) in t && t[NameKey(i)] == StringTag(s[i].roomName)
      && DidKey(i) in t && t[DidKey(i)] == BoolTag(s[i].didSpawns)
    decreases n
  {
    if i < n - 1 {
      SaveEntriesAt(base, s, n - 1, i);
      OtherIndexKeysDiffer(i, n - 1);
    } else {
      OwnKeysDiffer(i);
    }
  }

  /** Loading what was saved gives back every marker's anchor, name and flag, in the same order. */
  lemma SaveLoadRoundTrip(s: seq<MarkerState>)
    ensures LoadedStates(SavedTag(s)) == s
  {
    var t := SavedTag(s);
    SaveEntriesCount(map[CountKey := IntTag(|s|)], s, |s|);
    assert GetInt(t, CountKey) == |s|;
    if |s| > 0 {
      var l := LoadedStates(t);
      forall i | 0 <= i < |s| ensures l[i] == s[i] {
        SaveEntriesAt(map[CountKey := IntTag(|s|)], s, |s|, i);
      }
    }
  }

  /** A tag without a positive count loads nothing, so loading it leaves the markers as they are. */
  lemma EmptyTagLoadsNothing(tag: Tag)
    requires CountKey !in tag || GetInt(tag, CountKey) <= 0
    ensures LoadedStates(tag) == []
  {
  }

  lemma {:induction false} StatesConcat(a: seq<RoomMarker>, b: seq<RoomMarker>)
    ensures States(a + b) == States(a) + States(b)
    decreases |b|
  {
    if b == [] {
      assert a + b == a;
    } else {
      var c := b[..|b| - 1];
      StatesConcat(a, c);
      assert (a + b)[..|a + b| - 1] == a + c;
    }
  }

  lemma StatesAppend(ms: seq<RoomMarker>, m: RoomMarker)
    ensures States(ms + [m]) == States(ms) + [StateOf(m)]
  {
    assert (ms + [m])[..|ms|] == ms;
  }

  // ----------------------------------------------------------- the system

  class NpcRoomSpawner {
    /** The placed rooms (`RoomMarkers`), appended to during world generation and by loading. */
    var roomMarkers: seq<RoomMarker>
    /** The spawn table (`RoomInfo`), published by `SetupJson`. */
    var roomInfo: Table

    constructor ()
      ensures roomMarkers == [] && roomInfo == map[]
    {
      roomMarkers := [];
      roomInfo := map[];
    }

    /**
     * `SetupJson` on the parsed configuration: publishes the table, or
     * returns the exception that stopped it and leaves the table as it was.
     */
    method SetupJson(biomes: seq<SpawnTable.BiomeConfig>) returns (error: Option<SpawnTable.SetupError>)
      modifies this`roomInfo
      ensures SpawnTable.BuildSpec(biomes).Success? ==> error.None? && roomInfo == SpawnTable.BuildSpec(biomes).value
      ensures SpawnTable.BuildSpec(biomes).Failure? ==>
        error == Some(SpawnTable.BuildSpec(biomes).error) && roomInfo == old(roomInfo)
    {
      var r := SpawnTable.Build(biomes);
      match r {
        case Success(info) =>
          roomInfo := info;
          error := None;
        case Failure(e) =>
          error := Some(e);
      }
    }

    /** `PostUpdateNPCs`: each active player, in slot order, updates every marker in list order. */
    method PostUpdateNPCs(players: seq<Player>, dims: Dimensions, regs: Registries) returns (run: SpawnRun)
      modifies roomMarkers
      ensures var spec := Tick(players, |players|, roomMarkers, old(Flags(roomMarkers)), dims, roomInfo, regs);
        run == SpawnRun(spec.events, spec.outcome) && Flags(roomMarkers) == spec.flags
      // spawning is one-shot: a marker that had spawned before the tick still has
      ensures forall k | 0 <= k < |roomMarkers| && old(Flags(roomMarkers))[k] :: Flags(roomMarkers)[k]
    {
      var ms := roomMarkers;
      ghost var start := Flags(ms);
      FlagsConsistent(ms);
      TickKeepsFired(players, |players|, ms, start, dims, roomInfo, regs);
      var events: seq<SpawnEvent> := [];
      var outcome := Completed;
      var i := 0;
      while i < |players| && outcome.Completed?
        invariant 0 <= i <= |players|
        invariant Tick(players, i, ms, start, dims, roomInfo, regs) == TickRun(events, outcome, Flags(ms))
      {
        if players[i].active {
          var pass := UpdateMarkers(ms, players[i].center, dims, roomInfo, regs);
          events, outcome := events + pass.events, pass.outcome;
        }
        i := i + 1;
      }
      if outcome.Threw? {
        AfterThrowTickEnds(players, i, ms, start, dims, roomInfo, regs);
      }
      run := SpawnRun(events, outcome);
    }

    /** `SaveWorldData`, given the empty tag the engine hands it: the count and each marker's three values. */
    method SaveWorldData() returns (tag: Tag)
      ensures tag == SavedTag(States(roomMarkers))
    {
      ghost var s := States(roomMarkers);
      tag := map[CountKey := IntTag(|roomMarkers|)];
      var i := 0;
      while i < |roomMarkers|
        invariant 0 <= i <= |roomMarkers|
        invariant tag == SaveEntries(map[CountKey := IntTag(|s|)], s, i)
      {
        var marker := roomMarkers[i];
        assert States(roomMarkers)[i] == StateOf(marker) by { StatesAt(roomMarkers, i); }
        tag := tag[XyKey(i) := PointTag(marker.anchor)];
        tag := tag[NameKey(i) := StringTag(marker.roomName)];
        tag := tag[DidKey(i) := BoolTag(marker.didSpawns)];
        i := i + 1;
      }
    }

    /**
     * `LoadWorldData`: appends one new marker per stored entry, keeping the
     * markers already listed; nothing happens unless the stored count is
     * positive. The placement size is not stored, so loaded markers have
     * `a_width` and `a_height` 0.
     */
    method LoadWorldData(tag: Tag)
      modifies this`roomMarkers
      ensures States(roomMarkers) == old(States(roomMarkers)) + LoadedStates(tag)
      ensures roomMarkers[..old(|roomMarkers|)] == old(roomMarkers)
      ensures GetInt(tag, CountKey) <= 0 ==> roomMarkers == old(roomMarkers)
      ensures forall k | old(|roomMarkers|) <= k < |roomMarkers| ::
        fresh(roomMarkers[k]) && roomMarkers[k].aWidth == 0 && roomMarkers[k].aHeight == 0
    {
      var count := GetInt(tag, CountKey);
      if count <= 0 {
        return;
      }
      ghost var added: seq<RoomMarker> := [];
      var i := 0;
      while i < count
        invariant 0 <= i <= count && |added| == i
        invariant roomMarkers == old(roomMarkers) + added
        invariant States(added) == LoadEntries(tag, i)
        invariant forall k | 0 <= k < i :: fresh(added[k]) && added[k].aWidth == 0 && added[k].aHeight == 0
      {
        var marker := LoadMarker(tag, i);
        StatesAppend(added, marker);
        LoadEntriesSnoc(tag, i);
        roomMarkers := roomMarkers + [marker];
        added := added + [marker];
        i := i + 1;
      }
      StatesConcat(old(roomMarkers), added);
    }
  }

  lemma {:induction false} StatesAt(ms: seq<RoomMarker>, i: nat)
    requires i < |ms|
    ensures States(ms)[i] == StateOf(ms[i])
    decreases |ms|
  {
    if i < |ms| - 1 {
      StatesAt(ms[..|ms| - 1], i);
    }
  }
}
