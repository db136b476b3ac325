/**
 * The maps page: the list of running maps with their player and monster
 * counts, teleporting a player, the server-wide announcement, the detail
 * view, and creating and editing map definitions.
 */
module Maps {
  import opened Base
  import opened Text
  import opened Roles
  import opened Outcomes
  import opened Query
  import opened Records
  import opened Envir

  // ---------------------------------------------------------------------
  // Listing

  /** One row of the map list. */
  datatype MapView = MapView(
    index: int,
    fileName: String,
    description: String,
    minimumLevel: int,
    maximumLevel: int,
    playerCount: nat,
    monsterCount: nat,
    width: int,
    height: int,
    allowRT: bool)

  /** The player is on the map whose definition has index `index`. */
  function OnMap(index: int): Player -> bool {
    (p: Player) => p.mapIndex == Some(index)
  }

  function ViewOf(m: LiveMap, players: seq<Player>): MapView {
    MapView(m.info.index, m.info.form.fileName, m.info.form.description,
            m.info.form.minimumLevel, m.info.form.maximumLevel,
            |Filter(players, OnMap(m.info.index))|, |m.monsters|,
            m.width, m.height, m.info.form.allowRT)
  }

  function Views(maps: seq<LiveMap>, players: seq<Player>): (r: seq<MapView>)
    ensures |r| == |maps| && forall i :: 0 <= i < |maps| ==> r[i] == ViewOf(maps[i], players)
  {
    seq(|maps|, i requires 0 <= i < |maps| => ViewOf(maps[i], players))
  }

  /** A blank keyword keeps every map; otherwise its description or file name must contain it, ignoring case. */
  function Keep(keyword: String): LiveMap -> bool {
    (m: LiveMap) => IsBlank(keyword)
      || ContainsIgnoreCase(m.info.form.description, keyword)
      || ContainsIgnoreCase(m.info.form.fileName, keyword)
  }

  /** The `foreach` over the running maps of `LoadMaps`: one row per kept map, in map order. */
  method BuildViews(maps: seq<LiveMap>, players: seq<Player>, keyword: String) returns (views: seq<MapView>)
    ensures views == Views(Filter(maps, Keep(keyword)), players)
  {
    views := [];
    var i := 0;
    while i < |maps|
      invariant 0 <= i <= |maps|
      invariant views == Views(Filter(maps[..i], Keep(keyword)), players)
    {
      assert maps[..i + 1] == maps[..i] + [maps[i]];
      FilterSnoc(maps[..i], maps[i], Keep(keyword));
      if Keep(keyword)(maps[i]) {
        views := views + [ViewOf(maps[i], players)];
      }
      i := i + 1;
    }
    assert maps[..i] == maps;
  }

  function Codes(s: String): (r: seq<int>)
    ensures |r| == |s| && forall i :: 0 <= i < |s| ==> r[i] == s[i] as int
  {
    seq(|s|, i requires 0 <= i < |s| => s[i] as int)
  }

  /** `OrderByDescending(PlayerCount).ThenBy(Description)`. */
  function MapKey(v: MapView): seq<int> {
    [-(v.playerCount as int)] + Codes(v.description)
  }

  /**
   * `LoadMaps`: the rows of the kept maps, busiest map first, ties by
   * description.
   */
  method LoadMaps(maps: seq<LiveMap>, players: seq<Player>, keyword: String) returns (views: seq<MapView>)
    ensures views == SortBy(Views(Filter(maps, Keep(keyword)), players), MapKey)
    ensures multiset(views) == multiset(Views(Filter(maps, Keep(keyword)), players))
    ensures SortedBy(views, MapKey)
    ensures forall i, j :: 0 <= i < j < |views| ==> views[i].playerCount >= views[j].playerCount
  {
    var rows := BuildViews(maps, players, keyword);
    views := SortBy(rows, MapKey);
    forall i, j | 0 <= i < j < |views| ensures views[i].playerCount >= views[j].playerCount {
      LexLeHead(MapKey(views[i]), MapKey(views[j]));
    }
  }

  /** The keyword filter of the map list ignores letter case. */
  lemma KeepIgnoresCase(maps: seq<LiveMap>, k1: String, k2: String)
    requires EqualsIgnoreCase(k1, k2)
    ensures Filter(maps, Keep(k1)) == Filter(maps, Keep(k2))
  {
    forall i | 0 <= i < |maps| ensures Keep(k1)(maps[i]) == Keep(k2)(maps[i]) {
      KeywordCaseInvariant(k1, k2, maps[i].info.form.description, "");
      KeywordCaseInvariant(k1, k2, maps[i].info.form.fileName, "");
    }
    FilterSame(maps, Keep(k1), Keep(k2));
  }

  // ---------------------------------------------------------------------
  // Teleport and announcements

  /** A non-positive coordinate asks for a random location on the target map. */
  function Destination(x: int, y: int, randomLocation: Point): (r: Point)
    ensures x > 0 && y > 0 ==> r == Point(x, y)
    ensures x <= 0 || y <= 0 ==> r == randomLocation
  {
    if x <= 0 || y <= 0 then randomLocation else Point(x, y)
  }

  /**
   * `OnPostTeleport`: Admin only; the player must be online and the map
   * must be running. The player moves to the requested cell, or to
   * `randomLocation` (the target map's `GetRandomLocation`).
   */
  method Teleport(world: World, claim: Option<String>, playerName: String, mapIndex: int, x: int, y: int, randomLocation: Point)
    returns (r: Outcome<Point>)
    modifies world`players
    ensures !HasPermission(claim, Admin) ==> r == Fail(Denied(Admin))
    ensures HasPermission(claim, Admin) && FindPlayer(old(world.players), playerName).None? ==> r == Fail(PlayerOffline)
    ensures (HasPermission(claim, Admin) && FindPlayer(old(world.players), playerName).Some?
      && FindLiveMap(world.maps, mapIndex).None?) ==> r == Fail(NotFound(mapIndex))
    ensures (HasPermission(claim, Admin) && FindPlayer(old(world.players), playerName).Some?
      && FindLiveMap(world.maps, mapIndex).Some?) ==> r.Ok?
    ensures r.Fail? ==> world.players == old(world.players)
    ensures r.Ok? ==>
      FindPlayer(old(world.players), playerName).Some? && FindLiveMap(world.maps, mapIndex).Some?
      && r.value == Destination(x, y, randomLocation)
      && var pi := FindPlayer(old(world.players), playerName).value;
      world.players == old(world.players)[pi := old(world.players)[pi].(mapIndex := Some(mapIndex), location := r.value)]
  {
    if !HasPermission(claim, Admin) {
      return Fail(Denied(Admin));
    }
    var pi := FindPlayer(world.players, playerName);
    if pi.None? {
      return Fail(PlayerOffline);
    }
    if FindLiveMap(world.maps, mapIndex).None? {
      return Fail(NotFound(mapIndex));
    }
    var location := Destination(x, y, randomLocation);
    var p := world.players[pi.value];
    world.players := world.players[pi.value := p.(mapIndex := Some(mapIndex), location := location)];
    return Ok(location);
  }

  const AnnouncementPrefix: String := "[系统公告] "

  /** The `foreach` of `OnPostBroadcast`: every connected player receives the line; others are skipped. */
  method Announce(players: seq<Player>, text: String) returns (after: seq<Player>)
    ensures |after| == |players|
    ensures forall i :: 0 <= i < |players| ==>
      after[i] == if players[i].connected then players[i].(chat := players[i].chat + [Announcement(text)]) else players[i]
  {
    after := [];
    var i := 0;
    while i < |players|
      invariant 0 <= i <= |players| && |after| == i
      invariant forall j :: 0 <= j < i ==>
        after[j] == if players[j].connected then players[j].(chat := players[j].chat + [Announcement(text)]) else players[j]
    {
      var p := players[i];
      if p.connected {
        p := p.(chat := p.chat + [Announcement(text)]);
      }
      after := after + [p];
      i := i + 1;
    }
  }

  /** `OnPostBroadcast`: Operator only; the prefixed message goes to every connected player. */
  method Broadcast(world: World, claim: Option<String>, message: String) returns (r: Outcome<()>)
    modifies world`players
    ensures !HasPermission(claim, Operator) <==> r == Fail(Denied(Operator))
    ensures HasPermission(claim, Operator) ==> r.Ok?
    ensures r.Fail? ==> world.players == old(world.players)
    ensures |world.players| == |old(world.players)|
    ensures r.Ok? ==> forall i :: 0 <= i < |world.players| ==>
      world.players[i] == if old(world.players)[i].connected
        then old(world.players)[i].(chat := old(world.players)[i].chat + [Announcement(AnnouncementPrefix + message)])
        else old(world.players)[i]
  {
    if !HasPermission(claim, Operator) {
      return Fail(Denied(Operator));
    }
    world.players := Announce(world.players, AnnouncementPrefix + message);
    return Ok(());
  }

  // ---------------------------------------------------------------------
  // Detail view and editing

  /** `OnGetMapDetail`: Admin only; an unknown index is reported. */
  function GetMapDetail(infos: seq<MapInfo>, claim: Option<String>, mapIndex: int): (r: Outcome<MapInfo>)
    ensures !HasPermission(claim, Admin) ==> r == Fail(Denied(Admin))
    ensures HasPermission(claim, Admin) ==> (r.Fail? <==> FindMapInfo(infos, mapIndex).None?)
    ensures r.Fail? ==> r.why == Denied(Admin) || r.why == NotFound(mapIndex)
    ensures r.Ok? ==> r.value in infos && r.value.index == mapIndex
    ensures r.Ok? ==> exists i :: (0 <= i < |infos| && r.value == infos[i]
                                   && forall j :: 0 <= j < i ==> infos[j].index != mapIndex)
  {
    if !HasPermission(claim, Admin) then Fail(Denied(Admin))
    else match FindMapInfo(infos, mapIndex)
      case None => Fail(NotFound(mapIndex))
      case Some(i) => Ok(infos[i])
  }

  /** The form as a new map stores it: a blank description becomes the file name. */
  function StoredNew(form: MapForm): (r: MapForm)
    ensures r.fileName == form.fileName
    ensures !IsBlank(form.fileName) ==> !IsBlank(r.description)
    ensures !IsBlank(form.description) ==> r == form
    ensures r == form.(description := r.description)
  {
    if IsBlank(form.description) then form.(description := form.fileName) else form
  }

  /**
   * `OnPostCreateMap`: SuperAdmin only; a blank file name is refused. The
   * definition is added with a fresh index; no map starts running.
   */
  method CreateMap(world: World, claim: Option<String>, form: MapForm) returns (r: Outcome<int>)
    modifies world`mapInfos
    ensures !HasPermission(claim, SuperAdmin) ==> r == Fail(Denied(SuperAdmin))
    ensures HasPermission(claim, SuperAdmin) && IsBlank(form.fileName) ==> r == Fail(BlankName)
    ensures HasPermission(claim, SuperAdmin) && !IsBlank(form.fileName) ==> r.Ok?
    ensures r.Fail? ==> world.mapInfos == old(world.mapInfos)
    ensures r.Ok? ==>
      r.value == FreshIndex(MapIndices(old(world.mapInfos)))
      && world.mapInfos == old(world.mapInfos) + [MapInfo(r.value, StoredNew(form))]
  {
    if !HasPermission(claim, SuperAdmin) {
      return Fail(Denied(SuperAdmin));
    }
    if IsBlank(form.fileName) {
      return Fail(BlankName);
    }
    var index := FreshIndex(MapIndices(world.mapInfos));
    world.mapInfos := world.mapInfos + [MapInfo(index, StoredNew(form))];
    return Ok(index);
  }

  /** The running maps after their definition `info` changes: a running map shares its definition. */
  function WithInfo(maps: seq<LiveMap>, info: MapInfo): (r: seq<LiveMap>)
    ensures |r| == |maps|
    ensures forall j :: 0 <= j < |maps| ==>
      (maps[j].info.index == info.index ==> r[j] == maps[j].(info := info))
      && (maps[j].info.index != info.index ==> r[j] == maps[j])
  {
    seq(|maps|, j requires 0 <= j < |maps| => if maps[j].info.index == info.index then maps[j].(info := info) else maps[j])
  }

  /**
   * `OnPostUpdateMap`: SuperAdmin only; the definition must exist. Its
   * fields are replaced as posted (nothing is refused or defaulted here),
   * and a running map of it sees the new definition.
   */
  method UpdateMap(world: World, claim: Option<String>, mapIndex: int, form: MapForm) returns (r: Outcome<()>)
    modifies world`mapInfos, world`maps
    ensures !HasPermission(claim, SuperAdmin) ==> r == Fail(Denied(SuperAdmin))
    ensures HasPermission(claim, SuperAdmin) ==> (r.Fail? <==> FindMapInfo(old(world.mapInfos), mapIndex).None?)
    ensures r.Fail? ==> world.mapInfos == old(world.mapInfos) && world.maps == old(world.maps)
    ensures r.Ok? ==>
      FindMapInfo(old(world.mapInfos), mapIndex).Some?
      && world.mapInfos == old(world.mapInfos)[FindMapInfo(old(world.mapInfos), mapIndex).value := MapInfo(mapIndex, form)]
      && world.maps == WithInfo(old(world.maps), MapInfo(mapIndex, form))
  {
    if !HasPermission(claim, SuperAdmin) {
      return Fail(Denied(SuperAdmin));
    }
    var i := FindMapInfo(world.mapInfos, mapIndex);
    if i.None? {
      return Fail(NotFound(mapIndex));
    }
    world.mapInfos := world.mapInfos[i.value := MapInfo(mapIndex, form)];
    world.maps := WithInfo(world.maps, MapInfo(mapIndex, form));
    return Ok(());
  }

  /** Creating a map and reading its detail back returns the stored form under the new index. */
  lemma CreateThenDetail(infos: seq<MapInfo>, claim: Option<String>, form: MapForm)
    requires HasPermission(claim, Admin)
    ensures var index := FreshIndex(MapIndices(infos));
      GetMapDetail(infos + [MapInfo(index, StoredNew(form))], claim, index) == Ok(MapInfo(index, StoredNew(form)))
  {
    var index := FreshIndex(MapIndices(infos));
    var after := infos + [MapInfo(index, StoredNew(form))];
    assert forall j :: 0 <= j < |infos| ==> MapIndices(infos)[j] == infos[j].index;
    assert forall j :: 0 <= j < |after| && j != |infos| ==> after[j].index != after[|infos|].index;
    FindMapInfoAt(after, |infos|);
  }

  /** Updating a map and reading its detail back returns exactly the posted form. */
  lemma UpdateThenDetail(infos: seq<MapInfo>, claim: Option<String>, i: nat, form: MapForm)
    requires HasPermission(claim, Admin)
    requires i < |infos| && UniqueIndices(MapIndices(infos))
    ensures var index := infos[i].index;
      GetMapDetail(infos[i := MapInfo(index, form)], claim, index) == Ok(MapInfo(index, form))
  {
    var index := infos[i].index;
    var after := infos[i := MapInfo(index, form)];
    forall j | 0 <= j < |after| && j != i ensures after[j].index != after[i].index {
      assert MapIndices(infos)[j] != MapIndices(infos)[i];
    }
    FindMapInfoAt(after, i);
  }
}
