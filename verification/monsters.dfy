/**
 * The monsters page: the paged monster catalog, the detail view, summoning
 * monsters around an online player, clearing a player's map, and creating
 * and editing monster definitions with their stat rows.
 */
module Monsters {
  import opened Base
  import opened Text
  import opened Roles
  import opened Outcomes
  import opened Query
  import opened Records
  import opened Envir
  import opened MonsterStats
  import opened Placement

  const PageSize: int := 50

  // ---------------------------------------------------------------------
  // Listing

  /** The keyword filter on a monster's name and index, as the row predicate the query runs. */
  function Matches(keyword: String): MonsterInfo -> bool {
    (m: MonsterInfo) => KeywordMatch(m.form.monsterName, m.index, keyword)
  }

  function MonsterKey(m: MonsterInfo): seq<int> {
    [m.form.level, m.index]
  }

  /** Pairwise form of the level-then-index order. */
  lemma LevelIndexOrder(items: seq<MonsterInfo>)
    requires SortedBy(items, MonsterKey)
    ensures forall i, j :: 0 <= i < j < |items| ==>
      items[i].form.level < items[j].form.level
      || (items[i].form.level == items[j].form.level && items[i].index <= items[j].index)
  {
    forall i, j | 0 <= i < j < |items|
      ensures items[i].form.level < items[j].form.level
        || (items[i].form.level == items[j].form.level && items[i].index <= items[j].index)
    {
      LexLePair(items[i].form.level, items[i].index, items[j].form.level, items[j].index);
    }
  }

  /**
   * `LoadMonsters`: `TotalCount` counts the matching monsters and the page
   * holds the `page`-th run of fifty of them, by level and then index.
   */
  function LoadMonsters(infos: seq<MonsterInfo>, keyword: String, page: int): (r: PageResult<MonsterInfo>)
    ensures r.totalCount == |Filter(infos, Matches(keyword))|
    ensures r.items == Paginate(SortBy(Filter(infos, Matches(keyword)), MonsterKey), page, PageSize)
    ensures |r.items| == Max(0, Min(PageSize, r.totalCount - PageOffset(page, PageSize)))
    ensures forall i :: 0 <= i < |r.items| ==> r.items[i] in infos && Matches(keyword)(r.items[i])
    ensures forall i, j :: 0 <= i < j < |r.items| ==>
      r.items[i].form.level < r.items[j].form.level
      || (r.items[i].form.level == r.items[j].form.level && r.items[i].index <= r.items[j].index)
  {
    var r := RunQuery(infos, Matches(keyword), MonsterKey, page, PageSize);
    LevelIndexOrder(r.items);
    r
  }

  /** The keyword filter ignores letter case: the same keyword in any case gives the same page. */
  lemma LoadMonstersIgnoresCase(infos: seq<MonsterInfo>, k1: String, k2: String, page: int)
    requires EqualsIgnoreCase(k1, k2)
    ensures LoadMonsters(infos, k1, page) == LoadMonsters(infos, k2, page)
  {
    var p1 := Matches(k1);
    var p2 := Matches(k2);
    forall i | 0 <= i < |infos| ensures p1(infos[i]) == p2(infos[i]) {
      KeywordMatchIgnoresCase(infos[i].form.monsterName, infos[i].index, k1, k2);
    }
    FilterSame(infos, p1, p2);
  }

  /** Every monster matching the keyword is listed on one of the `TotalPages` pages. */
  lemma EveryMatchListed(infos: seq<MonsterInfo>, keyword: String, m: MonsterInfo)
    requires m in infos && Matches(keyword)(m)
    ensures exists page ::
      (1 <= page <= TotalPages(LoadMonsters(infos, keyword, 1).totalCount, PageSize)
       && m in LoadMonsters(infos, keyword, page).items)
  {
    RunQueryCovers(infos, Matches(keyword), MonsterKey, PageSize, m);
    var page :| 1 <= page <= TotalPages(|Filter(infos, Matches(keyword))|, PageSize)
      && m in RunQuery(infos, Matches(keyword), MonsterKey, page, PageSize).items;
    assert LoadMonsters(infos, keyword, page) == RunQuery(infos, Matches(keyword), MonsterKey, page, PageSize);
  }

  // ---------------------------------------------------------------------
  // Detail view

  /** What `OnGetMonsterDetail` reports: the definition's fields and its thirteen effective stats. */
  datatype MonsterDetail = MonsterDetail(index: int, form: MonsterForm, stats: StatForm)

  /** `OnGetMonsterDetail`: Admin only; an unknown index is reported. */
  function GetMonsterDetail(infos: seq<MonsterInfo>, claim: Option<String>, monsterIndex: int): (r: Outcome<MonsterDetail>)
    ensures !HasPermission(claim, Admin) ==> r == Fail(Denied(Admin))
    ensures HasPermission(claim, Admin) ==>
      (r.Fail? <==> FindMonsterInfo(infos, monsterIndex).None?)
    ensures r.Fail? ==> r.why == Denied(Admin) || r.why == NotFound(monsterIndex)
    ensures r.Ok? ==>
      (r.value.index == monsterIndex
       && exists i :: (0 <= i < |infos| && infos[i].index == monsterIndex
                       && (forall j :: 0 <= j < i ==> infos[j].index != monsterIndex)
                       && r.value.form == infos[i].form && r.value.stats == StatsOf(infos[i].stats)))
  {
    if !HasPermission(claim, Admin) then Fail(Denied(Admin))
    else match FindMonsterInfo(infos, monsterIndex)
      case None => Fail(NotFound(monsterIndex))
      case Some(i) => Ok(MonsterDetail(infos[i].index, infos[i].form, StatsOf(infos[i].stats)))
  }

  // ---------------------------------------------------------------------
  // Summoning and clearing

  datatype SpawnReport = SpawnReport(spawned: nat, requested: int)

  /**
   * `after` is `before` with `n` living monsters of definition
   * `monsterIndex` appended, each on a free cell; within `range` of the
   * anchor when the anchor is on the grid.
   */
  predicate Spawned(before: LiveMap, after: LiveMap, monsterIndex: int, anchor: Point, range: int, n: nat) {
    after.info == before.info && after.width == before.width && after.height == before.height
    && after.free == before.free
    && |after.monsters| == |before.monsters| + n
    && after.monsters[..|before.monsters|] == before.monsters
    && forall i :: |before.monsters| <= i < |after.monsters| ==>
      after.monsters[i].infoIndex == monsterIndex && !after.monsters[i].dead
      && CellFree(before, after.monsters[i].location)
      && (InBounds(before.width, before.height, anchor) ==> WithinRange(anchor, after.monsters[i].location, range))
  }

  /**
   * Summoning on one map: the monsters appended to `before` stand on the
   * cells the spawn search placed for the first `n` units, so their number
   * is that of the placed cells, at most the number of accepted units; when
   * the anchor is on the grid and every cell within `range` of it is free,
   * every accepted unit appears.
   */
  ghost predicate Summoned(before: LiveMap, after: LiveMap, monsterIndex: int, anchor: Point, range: int,
                     rng: nat -> nat, accepts: nat -> bool, n: nat, spawned: nat)
    requires range >= 1
  {
    var cells := Placed(before, anchor, range, rng, accepts, n).cells;
    spawned == |cells| <= Accepted(accepts, n)
    && Spawned(before, after, monsterIndex, anchor, range, spawned)
    && (forall i :: 0 <= i < |cells| ==> after.monsters[|before.monsters| + i].location == cells[i])
    && (InBounds(before.width, before.height, anchor)
        && (forall q :: InBounds(before.width, before.height, q) && WithinRange(anchor, q, range) ==> CellFree(before, q))
        ==> spawned == Accepted(accepts, n))
  }

  /**
   * `OnPostSpawnMonster`: Admin only; the player must be online, the
   * definition must exist and the player must be on a map. The count is
   * capped to 1..100 and the range to 1..20, and at most that many monsters
   * appear on the player's map; the report gives how many did.
   */
  method SpawnMonster(world: World, claim: Option<String>, playerName: String, monsterIndex: int,
                      count: int, range: int, rng: nat -> nat, accepts: nat -> bool)
    returns (r: Outcome<SpawnReport>)
    modifies world`maps
    ensures !HasPermission(claim, Admin) ==> r == Fail(Denied(Admin))
    ensures HasPermission(claim, Admin) && FindPlayer(world.players, playerName).None? ==> r == Fail(PlayerOffline)
    ensures (HasPermission(claim, Admin) && FindPlayer(world.players, playerName).Some?
      && FindMonsterInfo(world.monsterInfos, monsterIndex).None?) ==> r == Fail(NotFound(monsterIndex))
    ensures r.Fail? ==> world.maps == old(world.maps)
    ensures r.Ok? ==>
      HasPermission(claim, Admin) && FindPlayer(world.players, playerName).Some?
      && FindMonsterInfo(world.monsterInfos, monsterIndex).Some?
      && r.value.requested == NormaliseCount(count)
      && r.value.spawned <= r.value.requested
      && var p := world.players[FindPlayer(world.players, playerName).value];
      p.mapIndex.Some? && FindLiveMap(old(world.maps), p.mapIndex.value).Some?
      && var mi := FindLiveMap(old(world.maps), p.mapIndex.value).value;
      |world.maps| == |old(world.maps)|
      && (forall j :: 0 <= j < |world.maps| && j != mi ==> world.maps[j] == old(world.maps)[j])
      && Summoned(old(world.maps)[mi], world.maps[mi], monsterIndex, p.location, NormaliseRange(range),
                  rng, accepts, NormaliseCount(count), r.value.spawned)
    ensures (r.Fail? && HasPermission(claim, Admin) && FindPlayer(world.players, playerName).Some?
      && FindMonsterInfo(world.monsterInfos, monsterIndex).Some?) ==> r == Fail(NoCurrentMap)
    ensures (HasPermission(claim, Admin) && FindPlayer(world.players, playerName).Some?
      && FindMonsterInfo(world.monsterInfos, monsterIndex).Some?
      && var p := world.players[FindPlayer(world.players, playerName).value];
      p.mapIndex.Some? && FindLiveMap(old(world.maps), p.mapIndex.value).Some?) ==> r.Ok?
  {
    if !HasPermission(claim, Admin) {
      return Fail(Denied(Admin));
    }
    var pi := FindPlayer(world.players, playerName);
    if pi.None? {
      return Fail(PlayerOffline);
    }
    var info := FindMonsterInfo(world.monsterInfos, monsterIndex);
    if info.None? {
      return Fail(NotFound(monsterIndex));
    }
    var n := NormaliseCount(count);
    var rg := NormaliseRange(range);
    var player := world.players[pi.value];
    if player.mapIndex.None? {
      return Fail(NoCurrentMap);
    }
    var li := FindLiveMap(world.maps, player.mapIndex.value);
    if li.None? {
      return Fail(NoCurrentMap);
    }
    var after, spawned := SpawnOnMap(world.maps[li.value], monsterIndex, player.location, n, rg, rng, accepts);
    world.maps := world.maps[li.value := after];
    return Ok(SpawnReport(spawned, n));
  }

  /** The summoning loop of `OnPostSpawnMonster` on the player's map. */
  method SpawnOnMap(live: LiveMap, monsterIndex: int, anchor: Point, n: int, rg: int,
                    rng: nat -> nat, accepts: nat -> bool)
    returns (after: LiveMap, spawned: nat)
    requires 1 <= n && 1 <= rg
    ensures Summoned(live, after, monsterIndex, anchor, rg, rng, accepts, n, spawned)
  {
    ghost var search := (k: nat) => SpawnSearch(live, anchor, rg, rng, k);
    var placed;
    placed, spawned := PlaceUnits(live, anchor, n, rg, rng, accepts, search);
    PlacedIs(live, anchor, rg, rng, accepts, search, n);
    if InBounds(live.width, live.height, anchor)
      && forall q :: InBounds(live.width, live.height, q) && WithinRange(anchor, q, rg) ==> CellFree(live, q)
    {
      AllAcceptedSpawnWhenFree(live, anchor, rg, rng, accepts, n);
    }
    var added := seq(|placed|, i requires 0 <= i < |placed| => MonsterObject(monsterIndex, placed[i], false));
    after := live.(monsters := live.monsters + added);
    assert after.monsters[..|live.monsters|] == live.monsters;
  }

  /** The number of monsters in `s` that are still alive. */
  function CountLiving(s: seq<MonsterObject>): (r: nat)
    ensures r <= |s|
    ensures r == 0 <==> forall i :: 0 <= i < |s| ==> s[i].dead
    ensures r == |s| <==> forall i :: 0 <= i < |s| ==> !s[i].dead
    decreases |s|
  {
    if s == [] then 0
    else CountLiving(s[..|s| - 1]) + (if s[|s| - 1].dead then 0 else 1)
  }

  /**
   * The `foreach` of `OnPostKillMapMonsters` over a snapshot of the map's
   * monsters: every living one dies and is counted; the dead stay dead.
   */
  method KillAll(monsters: seq<MonsterObject>) returns (after: seq<MonsterObject>, killed: nat)
    ensures |after| == |monsters|
    ensures forall i :: 0 <= i < |after| ==> after[i] == monsters[i].(dead := true)
    ensures killed == CountLiving(monsters)
    ensures CountLiving(after) == 0
  {
    after := [];
    killed := 0;
    var i := 0;
    while i < |monsters|
      invariant 0 <= i <= |monsters| && |after| == i
      invariant forall j :: 0 <= j < i ==> after[j] == monsters[j].(dead := true)
      invariant killed == CountLiving(monsters[..i])
    {
      assert monsters[..i + 1][..i] == monsters[..i];
      if !monsters[i].dead {
        killed := killed + 1;
      }
      after := after + [monsters[i].(dead := true)];
      i := i + 1;
    }
    assert monsters[..i] == monsters;
  }

  /**
   * `OnPostKillMapMonsters`: Admin only; the player must be online and on a
   * map. Every monster on that map is dead afterwards and the report counts
   * those that were alive.
   */
  method KillMapMonsters(world: World, claim: Option<String>, playerName: String) returns (r: Outcome<nat>)
    modifies world`maps
    ensures !HasPermission(claim, Admin) ==> r == Fail(Denied(Admin))
    ensures HasPermission(claim, Admin) && FindPlayer(world.players, playerName).None? ==> r == Fail(PlayerOffline)
    ensures r.Fail? ==> world.maps == old(world.maps)
    ensures r.Fail? && HasPermission(claim, Admin) && FindPlayer(world.players, playerName).Some? ==> r == Fail(NoCurrentMap)
    ensures (HasPermission(claim, Admin) && FindPlayer(world.players, playerName).Some?
      && var p := world.players[FindPlayer(world.players, playerName).value];
      p.mapIndex.Some? && FindLiveMap(old(world.maps), p.mapIndex.value).Some?) ==> r.Ok?
    ensures r.Ok? ==>
      HasPermission(claim, Admin) && FindPlayer(world.players, playerName).Some?
      && var p := world.players[FindPlayer(world.players, playerName).value];
      p.mapIndex.Some? && FindLiveMap(old(world.maps), p.mapIndex.value).Some?
      && var mi := FindLiveMap(old(world.maps), p.mapIndex.value).value;
      var before := old(world.maps)[mi];
      r.value == CountLiving(before.monsters)
      && |world.maps| == |old(world.maps)|
      && (forall j :: 0 <= j < |world.maps| && j != mi ==> world.maps[j] == old(world.maps)[j])
      && world.maps[mi].info == before.info && world.maps[mi].free == before.free
      && world.maps[mi].width == before.width && world.maps[mi].height == before.height
      && |world.maps[mi].monsters| == |before.monsters|
      && (forall i :: 0 <= i < |before.monsters| ==> world.maps[mi].monsters[i] == before.monsters[i].(dead := true))
      && CountLiving(world.maps[mi].monsters) == 0
  {
    if !HasPermission(claim, Admin) {
      return Fail(Denied(Admin));
    }
    var pi := FindPlayer(world.players, playerName);
    if pi.None? {
      return Fail(PlayerOffline);
    }
    var player := world.players[pi.value];
    if player.mapIndex.None? {
      return Fail(NoCurrentMap);
    }
    var li := FindLiveMap(world.maps, player.mapIndex.value);
    if li.None? {
      return Fail(NoCurrentMap);
    }
    var live := world.maps[li.value];
    var after, killed := KillAll(live.monsters);
    world.maps := world.maps[li.value := live.(monsters := after)];
    return Ok(killed);
  }

  // ---------------------------------------------------------------------
  // Creating and editing definitions

  /**
   * `OnPostCreateMonster`: SuperAdmin only; a blank name is refused. The
   * new definition gets a fresh index, the posted fields, and one stat row
   * per non-zero posted stat.
   */
  method CreateMonster(world: World, claim: Option<String>, form: MonsterForm, stats: StatForm) returns (r: Outcome<int>)
    modifies world`monsterInfos
    ensures !HasPermission(claim, SuperAdmin) ==> r == Fail(Denied(SuperAdmin))
    ensures HasPermission(claim, SuperAdmin) && IsBlank(form.monsterName) ==> r == Fail(BlankName)
    ensures HasPermission(claim, SuperAdmin) && !IsBlank(form.monsterName) ==> r.Ok?
    ensures r.Fail? ==> world.monsterInfos == old(world.monsterInfos)
    ensures r.Ok? ==>
      r.value == FreshIndex(MonsterIndices(old(world.monsterInfos)))
      && world.monsterInfos == old(world.monsterInfos) + [MonsterInfo(r.value, form, CreateAll([], FormRows(stats)))]
  {
    if !HasPermission(claim, SuperAdmin) {
      return Fail(Denied(SuperAdmin));
    }
    if IsBlank(form.monsterName) {
      return Fail(BlankName);
    }
    var index := FreshIndex(MonsterIndices(world.monsterInfos));
    world.monsterInfos := world.monsterInfos + [MonsterInfo(index, form, CreateAll([], FormRows(stats)))];
    return Ok(index);
  }

  /**
   * `OnPostUpdateMonster`: SuperAdmin only; the definition must exist. Its
   * fields are replaced (a blank name is not refused here) and each of the
   * thirteen stats is updated in place, removed when zero or added when new.
   */
  method UpdateMonster(world: World, claim: Option<String>, monsterIndex: int, form: MonsterForm, stats: StatForm)
    returns (r: Outcome<()>)
    modifies world`monsterInfos
    ensures !HasPermission(claim, SuperAdmin) ==> r == Fail(Denied(SuperAdmin))
    ensures HasPermission(claim, SuperAdmin) ==>
      (r.Fail? <==> FindMonsterInfo(old(world.monsterInfos), monsterIndex).None?)
    ensures r.Fail? ==> world.monsterInfos == old(world.monsterInfos)
    ensures r.Ok? ==>
      FindMonsterInfo(old(world.monsterInfos), monsterIndex).Some?
      && var i := FindMonsterInfo(old(world.monsterInfos), monsterIndex).value;
      world.monsterInfos == old(world.monsterInfos)[i := MonsterInfo(monsterIndex, form, UpdateAll(old(world.monsterInfos)[i].stats, FormRows(stats)))]
  {
    if !HasPermission(claim, SuperAdmin) {
      return Fail(Denied(SuperAdmin));
    }
    var i := FindMonsterInfo(world.monsterInfos, monsterIndex);
    if i.None? {
      return Fail(NotFound(monsterIndex));
    }
    var m := world.monsterInfos[i.value];
    world.monsterInfos := world.monsterInfos[i.value := MonsterInfo(monsterIndex, form, UpdateAll(m.stats, FormRows(stats)))];
    return Ok(());
  }

  /**
   * Creating a monster and reading its detail back returns what was posted:
   * the new index, the form, and the thirteen stats.
   */
  lemma CreateThenDetail(infos: seq<MonsterInfo>, claim: Option<String>, form: MonsterForm, stats: StatForm)
    requires HasPermission(claim, Admin)
    ensures var index := FreshIndex(MonsterIndices(infos));
      GetMonsterDetail(infos + [MonsterInfo(index, form, CreateAll([], FormRows(stats)))], claim, index)
        == Ok(MonsterDetail(index, form, stats))
  {
    var index := FreshIndex(MonsterIndices(infos));
    var after := infos + [MonsterInfo(index, form, CreateAll([], FormRows(stats)))];
    assert forall j :: 0 <= j < |infos| ==> MonsterIndices(infos)[j] == infos[j].index;
    assert forall j :: 0 <= j < |after| && j != |infos| ==> after[j].index != after[|infos|].index;
    FindMonsterInfoAt(after, |infos|);
    CreateThenRead(stats);
  }

  /**
   * Updating a monster whose stat list has one row per kind and reading its
   * detail back returns the posted form and stats.
   */
  lemma UpdateThenDetail(infos: seq<MonsterInfo>, claim: Option<String>, i: nat, form: MonsterForm, stats: StatForm)
    requires HasPermission(claim, Admin)
    requires i < |infos| && UniqueIndices(MonsterIndices(infos)) && OnePerStat(infos[i].stats)
    ensures var index := infos[i].index;
      GetMonsterDetail(infos[i := MonsterInfo(index, form, UpdateAll(infos[i].stats, FormRows(stats)))], claim, index)
        == Ok(MonsterDetail(index, form, stats))
  {
    var index := infos[i].index;
    var after := infos[i := MonsterInfo(index, form, UpdateAll(infos[i].stats, FormRows(stats)))];
    forall j | 0 <= j < |after| && j != i ensures after[j].index != after[i].index {
      assert MonsterIndices(infos)[j] != MonsterIndices(infos)[i];
    }
    FindMonsterInfoAt(after, i);
    UpdateThenRead(infos[i].stats, stats);
  }

  /** Creating a monster keeps catalog indices unique. */
  lemma CreateKeepsIndicesUnique(infos: seq<MonsterInfo>, m: MonsterInfo)
    requires UniqueIndices(MonsterIndices(infos))
    requires m.index == FreshIndex(MonsterIndices(infos))
    ensures UniqueIndices(MonsterIndices(infos + [m]))
  {
    var ixs := MonsterIndices(infos + [m]);
    forall i, j | 0 <= i < j < |ixs| ensures ixs[i] != ixs[j] {
      if j < |infos| {
        assert ixs[i] == MonsterIndices(infos)[i] && ixs[j] == MonsterIndices(infos)[j];
      } else {
        assert ixs[i] == MonsterIndices(infos)[i];
      }
    }
  }
}
