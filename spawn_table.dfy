/**
 * Building the spawn table from the parsed configuration (`SetupJson`): a
 * list of biomes, each with rooms, each with spawn entries. Every room gets
 * an effective id and is added to the table with `Dictionary.Add`, which
 * throws on a repeated id, so the table is published only when every id is
 * distinct.
 */
module SpawnTable {
  import opened Wrappers
  import opened SpawnTypes
  import Decimal

  /** A parsed spawn entry; an absent field is `None`. */
  datatype EntryConfig = EntryConfig(nameOrType: Option<string>, offsetX: Option<UShort>, offsetY: Option<UShort>)
  /** A parsed room; an absent `Name` reads as null (`None`). */
  datatype RoomConfig = RoomConfig(name: Option<string>, spawnInfo: seq<EntryConfig>)
  /** A parsed biome; an absent `BiomeName` reads as null (`None`). */
  datatype BiomeConfig = BiomeConfig(biomeName: Option<string>, rooms: seq<RoomConfig>)

  /** The exceptions that abort building the table. */
  datatype SetupError =
    | DuplicateRoom(id: string)       // Dictionary.Add on an id already present
    | NullBiomeName(roomName: string) // roomName.StartsWith(null) on a biome without a name

  /** A room together with its biome's name and its index among that biome's rooms. */
  datatype RoomItem = RoomItem(biomeName: Option<string>, room: RoomConfig, index: nat)

  /** A spawn entry with the configuration's defaults: type "0" and offsets 0, nothing cached. */
  function ToSpawnInfo(e: EntryConfig): NpcSpawnInfo {
    NpcSpawnInfo(e.nameOrType.GetOr("0"), e.offsetX.GetOr(0), e.offsetY.GetOr(0), None)
  }

  /** A room's spawn list: its entries in order, each with the defaults applied. */
  function SpawnList(es: seq<EntryConfig>): seq<NpcSpawnInfo> {
    seq(|es|, i requires 0 <= i < |es| => ToSpawnInfo(es[i]))
  }

  /**
   * The id a room is stored under. A non-empty name is kept when it already
   * starts with the biome name and is otherwise prefixed with it and '_'; an
   * absent or empty name becomes the biome name, "_roomNo" and the room's
   * index in its biome. A null biome name makes the prefix test throw, and
   * is written as nothing in the automatic id.
   */
  function EffectiveRoomId(biome: Option<string>, name: Option<string>, k: nat): (r: Result<string, SetupError>)
    ensures r.Success? ==> r.value != ""
    ensures r.Success? && biome.Some? ==> biome.value <= r.value
    ensures r.Failure? <==> biome.None? && name.GetOr("") != ""
  {
    var n := name.GetOr("");
    if n != "" then
      if biome.None? then Failure(NullBiomeName(n))
      else if biome.value <= n then Success(n)
      else Success(biome.value + "_" + n)
    else
      Success(biome.GetOr("") + "_roomNo" + Decimal.NatToString(k))
  }

  function ItemId(it: RoomItem): Result<string, SetupError> {
    EffectiveRoomId(it.biomeName, it.room.name, it.index)
  }

  /** The rooms of one biome, in order, numbered from 0. */
  function BiomeRooms(b: BiomeConfig): (r: seq<RoomItem>)
    ensures |r| == |b.rooms|
  {
    seq(|b.rooms|, k requires 0 <= k < |b.rooms| => RoomItem(b.biomeName, b.rooms[k], k))
  }

  /** All rooms of the configuration in the order the loops visit them. */
  function AllRooms(bs: seq<BiomeConfig>): seq<RoomItem>
    decreases |bs|
  {
    if bs == [] then [] else AllRooms(bs[..|bs| - 1]) + BiomeRooms(bs[|bs| - 1])
  }

  /** `Dictionary.Add` of one room: its id must be computable and not yet present. */
  function AddRoom(t: Table, it: RoomItem): Result<Table, SetupError> {
    match ItemId(it)
    case Failure(e) => Failure(e)
    case Success(id) =>
      if id in t then Failure(DuplicateRoom(id))
      else Success(t[id := RoomSpawnInfo(id, SpawnList(it.room.spawnInfo))])
  }

  /** Adding the rooms one by one with `Dictionary.Add`: the table, or the first exception. */
  function AddRooms(items: seq<RoomItem>): Result<Table, SetupError>
    decreases |items|
  {
    if items == [] then Success(map[])
    else match AddRooms(items[..|items| - 1])
      case Failure(e) => Failure(e)
      case Success(t) => AddRoom(t, items[|items| - 1])
  }

  /** The table `SetupJson` publishes for a configuration, or the exception that stops it. */
  function BuildSpec(bs: seq<BiomeConfig>): Result<Table, SetupError> {
    AddRooms(AllRooms(bs))
  }

  ghost predicate IdsValid(items: seq<RoomItem>) {
    forall i :: 0 <= i < |items| ==> ItemId(items[i]).Success?
  }

  ghost predicate IdsDistinct(items: seq<RoomItem>)
    requires IdsValid(items)
  {
    forall i, j :: 0 <= i < j < |items| ==> ItemId(items[i]).value != ItemId(items[j]).value
  }

  /** The ids of a list of rooms whose ids are all valid. */
  ghost function Ids(items: seq<RoomItem>): set<string>
    requires IdsValid(items)
  {
    set i | 0 <= i < |items| :: ItemId(items[i]).value
  }

  // ---------------------------------------------------------------- room ids

  /** A named room whose name already starts with the biome name keeps its name (no underscore needed). */
  lemma PrefixedNameKept(biome: string, name: string, k: nat)
    requires name != "" && biome <= name
    ensures EffectiveRoomId(Some(biome), Some(name), k) == Success(name)
  {
  }

  /** Any other named room is prefixed with the biome name and '_', whatever its index. */
  lemma OtherNamePrefixed(biome: string, name: string, k: nat)
    requires name != "" && !(biome <= name)
    ensures EffectiveRoomId(Some(biome), Some(name), k) == Success(biome + "_" + name)
  {
  }

  /** The examples: "Foo", "Cave_Foo" and "CaveFoo" in "Cave", and an unnamed third room. */
  lemma RoomIdExamples()
    ensures EffectiveRoomId(Some("Cave"), Some("Foo"), 0) == Success("Cave_Foo")
    ensures EffectiveRoomId(Some("Cave"), Some("Cave_Foo"), 0) == Success("Cave_Foo")
    ensures EffectiveRoomId(Some("Cave"), Some("CaveFoo"), 0) == Success("CaveFoo")
    ensures EffectiveRoomId(Some("Cave"), None, 2) == Success("Cave_roomNo2")
  {
    assert !("Cave" <= "Foo") by { assert "Foo"[0] != "Cave"[0]; }
    assert "Cave" + "_" + "Foo" == "Cave_Foo";
    assert "Cave" <= "Cave_Foo" && "Cave" <= "CaveFoo";
    assert Decimal.NatToString(2) == "2";
    assert "Cave" + "_roomNo" + "2" == "Cave_roomNo2";
  }

  /** Two unnamed rooms of one biome at different indexes get different ids. */
  lemma AutoIdsDistinct(biome: Option<string>, n1: Option<string>, n2: Option<string>, k1: nat, k2: nat)
    requires n1.GetOr("") == "" && n2.GetOr("") == "" && k1 != k2
    ensures EffectiveRoomId(biome, n1, k1) != EffectiveRoomId(biome, n2, k2)
  {
    var p := biome.GetOr("") + "_roomNo";
    var s1, s2 := Decimal.NatToString(k1), Decimal.NatToString(k2);
    if p + s1 == p + s2 {
      assert s1 == (p + s1)[|p|..];
      assert s2 == (p + s2)[|p|..];
      Decimal.NatToStringInjective(k1, k2);
    }
  }

  // --------------------------------------------------------- room positions

  lemma {:induction false} AllRoomsAppend(a: seq<BiomeConfig>, b: seq<BiomeConfig>)
    ensures AllRooms(a + b) == AllRooms(a) + AllRooms(b)
    decreases |b|
  {
    if b != [] {
      var ab := a + b;
      assert ab[..|ab| - 1] == a + b[..|b| - 1];
      AllRoomsAppend(a, b[..|b| - 1]);
    } else {
      assert a + b == a;
    }
  }

  /**
   * Room k of biome bi sits in the visiting order right after the rooms of
   * the earlier biomes and carries index k: the counter counts every room of
   * its biome, named or not, and restarts at 0 in each biome.
   */
  lemma AllRoomsIndex(bs: seq<BiomeConfig>, bi: nat, k: nat)
    requires bi < |bs| && k < |bs[bi].rooms|
    ensures var pos := |AllRooms(bs[..bi])| + k;
      pos < |AllRooms(bs)| && AllRooms(bs)[pos] == RoomItem(bs[bi].biomeName, bs[bi].rooms[k], k)
  {
    AllRoomsSplit(bs, bi);
  }

  // ------------------------------------------------------- the table itself

  lemma {:induction false} AddRoomsFailureSticks(items: seq<RoomItem>, more: seq<RoomItem>)
    requires AddRooms(items).Failure?
    ensures AddRooms(items + more) == AddRooms(items)
    decreases |more|
  {
    if more == [] {
      assert items + more == items;
    } else {
      var all := items + more;
      assert all[..|all| - 1] == items + more[..|more| - 1];
      AddRoomsFailureSticks(items, more[..|more| - 1]);
    }
  }

  /** Valid and distinct ids stay so in every prefix of the room list. */
  lemma PrefixIds(items: seq<RoomItem>, n: nat)
    requires n <= |items|
    ensures IdsValid(items) ==> IdsValid(items[..n])
    ensures IdsValid(items) && IdsDistinct(items) ==> IdsDistinct(items[..n])
  {
    assert forall i :: 0 <= i < n ==> items[..n][i] == items[i];
  }

  /** The ids of a published table are valid. */
  lemma {:induction false} AddRoomsValid(items: seq<RoomItem>)
    requires AddRooms(items).Success?
    ensures IdsValid(items)
    decreases |items|
  {
    if items != [] {
      var n := |items| - 1;
      AddRoomsValid(items[..n]);
      assert forall i :: 0 <= i < n ==> items[..n][i] == items[i];
    }
  }

  /** A published table holds exactly the rooms' ids. */
  lemma {:induction false} AddRoomsKeys(items: seq<RoomItem>)
    requires AddRooms(items).Success?
    ensures IdsValid(items) && AddRooms(items).value.Keys == Ids(items)
    decreases |items|
  {
    AddRoomsValid(items);
    if items != [] {
      var n := |items| - 1;
      var pre := items[..n];
      AddRoomsKeys(pre);
      var id := ItemId(items[n]).value;
      assert Ids(items) == Ids(pre) + {id} by {
        forall x | x in Ids(items) ensures x in Ids(pre) + {id} {
          var i :| 0 <= i < |items| && ItemId(items[i]).value == x;
          if i < n { assert pre[i] == items[i]; }
        }
        forall x | x in Ids(pre) ensures x in Ids(items) {
          var i :| 0 <= i < n && ItemId(pre[i]).value == x;
          assert pre[i] == items[i];
        }
      }
    }
  }

  /** A published table maps the id of each room to that room's spawn list. */
  lemma {:induction false} AddRoomsLookup(items: seq<RoomItem>, i: nat)
    requires AddRooms(items).Success? && i < |items|
    ensures IdsValid(items) && ItemId(items[i]).value in AddRooms(items).value
    ensures AddRooms(items).value[ItemId(items[i]).value]
      == RoomSpawnInfo(ItemId(items[i]).value, SpawnList(items[i].room.spawnInfo))
    decreases |items|
  {
    AddRoomsValid(items);
    var n := |items| - 1;
    if i < n {
      var pre := items[..n];
      assert pre[i] == items[i];
      AddRoomsLookup(pre, i);
      AddRoomsKeys(pre);
      assert ItemId(pre[i]).value in Ids(pre);
    }
  }

  /**
   * The table is published exactly when every room id can be computed and no
   * two rooms share an id: a repeated id or a null biome name makes it throw.
   */
  lemma {:induction false} AddRoomsSucceedsIff(items: seq<RoomItem>)
    ensures AddRooms(items).Success? <==> IdsValid(items) && IdsDistinct(items)
    decreases |items|
  {
    if items != [] {
      var n := |items| - 1;
      var pre := items[..n];
      AddRoomsSucceedsIff(pre);
      PrefixIds(items, n);
      if AddRooms(pre).Success? && ItemId(items[n]).Success? {
        AddRoomsKeys(pre);
        var id := ItemId(items[n]).value;
        if id in AddRooms(pre).value {
          var i :| 0 <= i < n && ItemId(pre[i]).value == id;
          assert ItemId(items[i]).value == ItemId(items[n]).value;
        } else {
          forall i, j | 0 <= i < j < |items|
            ensures ItemId(items[i]).value != ItemId(items[j]).value
          {
            assert pre[i] == items[i];
            if j == n {
              assert ItemId(pre[i]).value in Ids(pre);
            } else {
              assert pre[j] == items[j];
            }
          }
        }
      }
    }
  }

  // ------------------------------------------------------- the build loops

  /** The spawn list of one room, read entry by entry. */
  method ReadSpawnInfo(es: seq<EntryConfig>) returns (list: seq<NpcSpawnInfo>)
    ensures list == SpawnList(es)
  {
    list := [];
    var k := 0;
    while k < |es|
      invariant 0 <= k <= |es|
      invariant |list| == k
      invariant forall t :: 0 <= t < k ==> list[t] == ToSpawnInfo(es[t])
    {
      var e := es[k];
      var nameOrType := e.nameOrType.GetOr("0");
      var offsetX := e.offsetX.GetOr(0);
      var offsetY := e.offsetY.GetOr(0);
      list := list + [NpcSpawnInfo(nameOrType, offsetX, offsetY, None)];
      k := k + 1;
    }
  }

  /**
   * A room's id as the room loop computes it: kept, prefixed with the biome
   * name, or numbered; the prefix test throws on a null biome name.
   */
  method RoomId(biomeName: Option<string>, name: Option<string>, roomCount: nat) returns (r: Result<string, SetupError>)
    ensures r == EffectiveRoomId(biomeName, name, roomCount)
  {
    var roomName := name.GetOr("");
    if roomName != "" {
      if biomeName.None? {
        return Failure(NullBiomeName(roomName));
      }
      if !(biomeName.value <= roomName) {
        roomName := biomeName.value + "_" + roomName;
      }
    } else {
      roomName := biomeName.GetOr("") + "_roomNo" + Decimal.NatToString(roomCount);
    }
    r := Success(roomName);
  }

  lemma AddRoomsSnoc(items: seq<RoomItem>, it: RoomItem)
    requires AddRooms(items).Success?
    ensures AddRooms(items + [it]) == AddRoom(AddRooms(items).value, it)
  {
    assert (items + [it])[..|items|] == items;
  }

  /** Walks the biomes and rooms, building the table with `Dictionary.Add` semantics. */
  method Build(biomes: seq<BiomeConfig>) returns (r: Result<Table, SetupError>)
    ensures r == BuildSpec(biomes)
  {
    var info: Table := map[];
    var i := 0;
    while i < |biomes|
      invariant 0 <= i <= |biomes|
      invariant AddRooms(AllRooms(biomes[..i])) == Success(info)
    {
      assert biomes[..i + 1][..i] == biomes[..i];
      r := AddBiomeRooms(info, AllRooms(biomes[..i]), biomes[i]);
      if r.Failure? {
        FailureReachesEnd(biomes, i + 1);
        return;
      }
      info := r.value;
      i := i + 1;
    }
    assert biomes[..i] == biomes;
    r := Success(info);
  }

  /**
   * The inner loop: adds the rooms of one biome to the table built from the
   * rooms before it, numbering them from 0, up to the first exception.
   */
  method AddBiomeRooms(info: Table, ghost done: seq<RoomItem>, biome: BiomeConfig) returns (r: Result<Table, SetupError>)
    requires AddRooms(done) == Success(info)
    ensures r == AddRooms(done + BiomeRooms(biome))
  {
    var table := info;
    var roomCount := 0;
    var j := 0;
    assert done + BiomeRooms(biome)[..0] == done;
    while j < |biome.rooms|
      invariant 0 <= j <= |biome.rooms|
      invariant roomCount == j
      invariant AddRooms(done + BiomeRooms(biome)[..j]) == Success(table)
    {
      var room := biome.rooms[j];
      ghost var item := RoomItem(biome.biomeName, room, roomCount);
      assert done + BiomeRooms(biome)[..j + 1] == (done + BiomeRooms(biome)[..j]) + [item] by {
        assert BiomeRooms(biome)[..j + 1] == BiomeRooms(biome)[..j] + [item];
      }
      AddRoomsSnoc(done + BiomeRooms(biome)[..j], item);
      var id := RoomId(biome.biomeName, room.name, roomCount);
      if id.Failure? {
        r := Failure(id.error);
        RestFails(done, BiomeRooms(biome), j + 1);
        return;
      }
      var roomName := id.value;
      roomCount := roomCount + 1;
      var spawnInfo := ReadSpawnInfo(room.spawnInfo);
      if roomName in table {
        r := Failure(DuplicateRoom(roomName));
        RestFails(done, BiomeRooms(biome), j + 1);
        return;
      }
      table := table[roomName := RoomSpawnInfo(roomName, spawnInfo)];
      j := j + 1;
    }
    assert BiomeRooms(biome)[..j] == BiomeRooms(biome);
    r := Success(table);
  }

  /** Once the rooms of a prefix of a biome fail, the rooms of the whole biome fail the same way. */
  lemma RestFails(done: seq<RoomItem>, rooms: seq<RoomItem>, j: nat)
    requires j <= |rooms| && AddRooms(done + rooms[..j]).Failure?
    ensures AddRooms(done + rooms) == AddRooms(done + rooms[..j])
  {
    assert done + rooms == (done + rooms[..j]) + rooms[j..];
    AddRoomsFailureSticks(done + rooms[..j], rooms[j..]);
  }

  /** Once the rooms of the first i biomes fail, the whole configuration fails the same way. */
  lemma FailureReachesEnd(bs: seq<BiomeConfig>, i: nat)
    requires i <= |bs| && AddRooms(AllRooms(bs[..i])).Failure?
    ensures BuildSpec(bs) == AddRooms(AllRooms(bs[..i]))
  {
    assert bs == bs[..i] + bs[i..];
    AllRoomsAppend(bs[..i], bs[i..]);
    AddRoomsFailureSticks(AllRooms(bs[..i]), AllRooms(bs[i..]));
  }

  /** The rooms of biome i sit between those of the biomes before it and after it. */
  lemma {:induction false} AllRoomsSplit(bs: seq<BiomeConfig>, i: nat)
    requires i < |bs|
    ensures AllRooms(bs) == AllRooms(bs[..i]) + BiomeRooms(bs[i]) + AllRooms(bs[i + 1..])
  {
    var upto := bs[..i + 1];
    assert bs == upto + bs[i + 1..];
    AllRoomsAppend(upto, bs[i + 1..]);
    assert upto[..|upto| - 1] == bs[..i];
    assert AllRooms(upto) == AllRooms(bs[..i]) + BiomeRooms(bs[i]);
  }

  /** No room of a published table has the empty id, so a marker with no name never finds its spawns. */
  lemma EmptyIdNeverStored(bs: seq<BiomeConfig>)
    requires BuildSpec(bs).Success?
    ensures "" !in BuildSpec(bs).value
  {
    var items := AllRooms(bs);
    AddRoomsKeys(items);
    assert forall i | 0 <= i < |items| :: ItemId(items[i]).value != "";
  }

  /** Every entry of a published table is stored under its own name and has nothing cached. */
  lemma {:induction false} TableEntriesUncached(items: seq<RoomItem>)
    requires AddRooms(items).Success?
    ensures forall id | id in AddRooms(items).value ::
      AddRooms(items).value[id].roomName == id
      && forall e | e in AddRooms(items).value[id].npcs :: e.npcType.None?
    decreases |items|
  {
    if items != [] {
      TableEntriesUncached(items[..|items| - 1]);
    }
  }
}
