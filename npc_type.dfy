/**
 * The `NPCSpawnInfo.NPCType` getter: the NPC type of a spawn entry, found by
 * number, then by vanilla name, then by mod name, and cached on success. The
 * getter writes its cache into the struct it runs on; here it returns that
 * updated copy beside the result.
 */
module NpcTypes {
  import opened Wrappers
  import opened SpawnTypes
  import Decimal

  /** What one read of `NPCType` yields: the type or the exception, and the entry with its cache afterwards. */
  datatype Resolution = Resolution(npcType: Result<int, Exception>, info: NpcSpawnInfo)

  function ResolveType(info: NpcSpawnInfo, regs: Registries): (r: Resolution)
    // only the cache can change, and only on success, to the value returned
    ensures r.npcType.Success? ==> r.info == info.(npcType := Some(r.npcType.value))
    ensures r.npcType.Failure? ==> r.info == info && r.npcType.error == TypeNotFound(info.nameOrType)
    // it fails exactly when nothing is cached and none of the three lookups succeeds
    ensures r.npcType.Failure? <==>
      info.npcType.None? && Decimal.ParseInt(info.nameOrType).None?
      && info.nameOrType !in regs.vanilla && info.nameOrType !in regs.modded
  {
    if info.npcType.Some? then
      Resolution(Success(info.npcType.value), info)
    else match Decimal.ParseInt(info.nameOrType)
      case Some(n) => Resolution(Success(n), info.(npcType := Some(n)))
      case None =>
        if info.nameOrType in regs.vanilla then
          var t := regs.vanilla[info.nameOrType];
          Resolution(Success(t), info.(npcType := Some(t)))
        else if info.nameOrType in regs.modded then
          var t := regs.modded[info.nameOrType];
          Resolution(Success(t), info.(npcType := Some(t)))
        else
          Resolution(Failure(TypeNotFound(info.nameOrType)), info)
  }

  /** A cached type is returned as is, whatever the registries hold. */
  lemma CachedTypeWins(info: NpcSpawnInfo, regs: Registries)
    requires info.npcType.Some?
    ensures ResolveType(info, regs) == Resolution(Success(info.npcType.value), info)
  {
  }

  /** Reading the getter again on the updated entry gives the same type and changes nothing more. */
  lemma ResolveIdempotent(info: NpcSpawnInfo, regs: Registries, later: Registries)
    requires ResolveType(info, regs).npcType.Success?
    ensures var r := ResolveType(info, regs);
      ResolveType(r.info, later) == r
  {
  }

  /** The decimal text of a 32-bit number resolves to that number without consulting the registries. */
  lemma NumericNameResolves(n: int, x: UShort, y: UShort, regs: Registries)
    requires Decimal.Int32Min <= n <= Decimal.Int32Max
    ensures var info := NpcSpawnInfo(Decimal.IntToString(n), x, y, None);
      ResolveType(info, regs) == Resolution(Success(n), info.(npcType := Some(n)))
  {
    Decimal.ParseIntToString(n);
  }

  /**
   * Any text that parses as a 32-bit integer, canonical or not ("+5", "007",
   * "-0"), resolves to that integer whatever the registries hold, and is cached.
   */
  lemma NumericTextResolves(info: NpcSpawnInfo, n: int, regs: Registries)
    requires info.npcType.None? && Decimal.ParseInt(info.nameOrType) == Some(n)
    ensures ResolveType(info, regs) == Resolution(Success(n), info.(npcType := Some(n)))
  {
  }

  /** A name that is not a number and is both a vanilla and a mod NPC resolves to the vanilla one. */
  lemma VanillaBeforeModded(info: NpcSpawnInfo, regs: Registries)
    requires info.npcType.None? && Decimal.ParseInt(info.nameOrType).None?
    requires info.nameOrType in regs.vanilla
    ensures ResolveType(info, regs).npcType == Success(regs.vanilla[info.nameOrType])
  {
  }

  /**
   * A failed lookup caches nothing, so a retry after the mod registry has
   * gained the name succeeds with the mod's type.
   */
  lemma FailureIsRetried(info: NpcSpawnInfo, regs: Registries, t: int)
    requires ResolveType(info, regs).npcType.Failure?
    ensures var later := regs.(modded := regs.modded[info.nameOrType := t]);
      ResolveType(ResolveType(info, regs).info, later).npcType == Success(t)
  {
  }
}
