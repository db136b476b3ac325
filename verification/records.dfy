/**
 * The game records the admin pages read and write: accounts, the item,
 * monster, magic and map catalogs, live maps and online players. Each
 * record is a value; the shared world that holds them is `Envir.World`.
 * Enumerations of the game library (item type, class, school, light
 * setting, ...) are kept as their integer codes, which is what the
 * pages' casts produce.
 */
module Records {
  import opened Base
  import opened Text
  import opened Roles
  import opened Query

  datatype Point = Point(x: int, y: int)

  /** `AccountInfo`, with the names of its characters. */
  datatype Account = Account(
    email: String,
    identify: AccountIdentity,
    gameGold: int,
    huntGold: int,
    banned: bool,
    characterNames: seq<String>)

  // ---------------------------------------------------------------------
  // Item catalog

  /** The editable fields of an `ItemInfo`, as the create and update forms post them. */
  datatype ItemForm = ItemForm(
    itemName: String,
    itemType: int,
    requiredClass: int,
    requiredGender: int,
    requiredType: int,
    requiredAmount: int,
    shape: int,
    effect: int,
    image: int,
    durability: int,
    price: int,
    weight: int,
    stackSize: int,
    rarity: int)

  datatype ItemInfo = ItemInfo(index: int, form: ItemForm)

  /** A fresh item instance (`UserItem`) made from a definition. */
  datatype ItemStack = ItemStack(infoIndex: int, count: int)

  // ---------------------------------------------------------------------
  // Monster catalog

  /** The stat kinds the monster forms edit, and any other stored kind. */
  datatype Stat =
    | Health | MinAC | MaxAC | MinMR | MaxMR | MinDC | MaxDC
    | MinMC | MaxMC | MinSC | MaxSC | Accuracy | Agility
    | OtherStat(code: int)

  /** One `MonsterInfoStat` row: a stat kind and its amount. */
  datatype StatEntry = StatEntry(stat: Stat, amount: int)

  /** The scalar fields of a `MonsterInfo` the create and update forms set. */
  datatype MonsterForm = MonsterForm(
    monsterName: String,
    level: int,
    experience: int,
    viewRange: int,
    coolEye: int,
    attackDelay: int,
    moveDelay: int,
    isBoss: bool,
    undead: bool,
    canPush: bool,
    canTame: bool)

  datatype MonsterInfo = MonsterInfo(index: int, form: MonsterForm, stats: seq<StatEntry>)

  /** A live `MonsterObject` on a map. */
  datatype MonsterObject = MonsterObject(infoIndex: int, location: Point, dead: bool)

  // ---------------------------------------------------------------------
  // Magic catalog and learned skills

  /** The fields of a `MagicInfo` the update form sets. */
  datatype MagicEdit = MagicEdit(
    name: String,
    icon: int,
    minBasePower: int,
    maxBasePower: int,
    minLevelPower: int,
    maxLevelPower: int,
    baseCost: int,
    levelCost: int,
    needLevel1: int,
    needLevel2: int,
    needLevel3: int,
    experience1: int,
    experience2: int,
    experience3: int,
    delay: int,
    description: String)

  /** `MagicInfo`: `magic` is its `MagicType` code, `mirClass` its `MirClass` code. */
  datatype MagicInfo = MagicInfo(index: int, magic: int, mirClass: int, school: int, mode: int, edit: MagicEdit)

  /** `UserMagic`: a skill a character has learned. */
  datatype UserMagic = UserMagic(infoIndex: int, magic: int, level: int, experience: int)

  /**
   * A character's skills: the `Character.Magics` list and the
   * `player.Magics` dictionary from magic type to the same record.
   */
  datatype SkillBook = SkillBook(list: seq<UserMagic>, byType: map<int, UserMagic>)

  // ---------------------------------------------------------------------
  // Map catalog and live maps

  /** The fields of a `MapInfo` the create and update forms set. */
  datatype MapForm = MapForm(
    fileName: String,
    description: String,
    miniMap: int,
    light: int,
    fight: int,
    allowRT: bool,
    allowTT: bool,
    canHorse: bool,
    canMine: bool,
    canMarriageRecall: bool,
    allowRecall: bool,
    minimumLevel: int,
    maximumLevel: int,
    monsterHealth: int,
    maxMonsterHealth: int,
    monsterDamage: int,
    maxMonsterDamage: int,
    dropRate: int,
    maxDropRate: int,
    experienceRate: int,
    maxExperienceRate: int,
    goldRate: int,
    maxGoldRate: int,
    skillDelay: int)

  datatype MapInfo = MapInfo(index: int, form: MapForm)

  /**
   * A running `Map`: its definition, its grid, the cells a monster may
   * stand on (`GetCell` is non-null and has no `Movements`), and the
   * monster objects on it.
   */
  datatype LiveMap = LiveMap(info: MapInfo, width: int, height: int, free: set<Point>, monsters: seq<MonsterObject>)

  // ---------------------------------------------------------------------
  // Online players

  /** A chat line delivered to a player's connection. */
  datatype Chat = Announcement(text: String)

  /**
   * A `PlayerObject`: `mapIndex` is the index of the definition of its
   * current map (`None` when it has none), `connected` whether it has a
   * `Connection`.
   */
  datatype Player = Player(
    name: String,
    accountEmail: String,
    mirClass: int,
    level: int,
    mapIndex: Option<int>,
    location: Point,
    connected: bool,
    disconnectRequested: bool,
    chat: seq<Chat>,
    skills: SkillBook,
    bag: seq<ItemStack>)

  // ---------------------------------------------------------------------
  // Look-ups the pages share

  /** `SEnvir.Players.FirstOrDefault(p => name equals playerName ignoring case)`. */
  function FindPlayer(players: seq<Player>, name: String): (r: Option<nat>)
    ensures r.Some? ==> r.value < |players| && EqualsIgnoreCase(players[r.value].name, name)
    ensures r.Some? ==> forall j :: 0 <= j < r.value ==> !EqualsIgnoreCase(players[j].name, name)
    ensures r.None? <==> forall j :: 0 <= j < |players| ==> !EqualsIgnoreCase(players[j].name, name)
  {
    FirstIndex(players, (p: Player) => EqualsIgnoreCase(p.name, name))
  }

  /** `ItemInfoList.Binding.FirstOrDefault(i => i.Index == index)`. */
  function FindItemInfo(infos: seq<ItemInfo>, index: int): (r: Option<nat>)
    ensures r.Some? ==> r.value < |infos| && infos[r.value].index == index
    ensures r.Some? ==> forall j :: 0 <= j < r.value ==> infos[j].index != index
    ensures r.None? <==> forall j :: 0 <= j < |infos| ==> infos[j].index != index
  {
    FirstIndex(infos, (i: ItemInfo) => i.index == index)
  }

  /** A definition whose index no other row shares is the one the look-up finds. */
  lemma FindItemInfoAt(infos: seq<ItemInfo>, i: nat)
    requires i < |infos|
    requires forall j :: 0 <= j < |infos| && j != i ==> infos[j].index != infos[i].index
    ensures FindItemInfo(infos, infos[i].index) == Some(i)
  {
    var r := FindItemInfo(infos, infos[i].index);
    assert r.Some?;
  }

  /** `MonsterInfoList.Binding.FirstOrDefault(m => m.Index == index)`. */
  function FindMonsterInfo(infos: seq<MonsterInfo>, index: int): (r: Option<nat>)
    ensures r.Some? ==> r.value < |infos| && infos[r.value].index == index
    ensures r.Some? ==> forall j :: 0 <= j < r.value ==> infos[j].index != index
    ensures r.None? <==> forall j :: 0 <= j < |infos| ==> infos[j].index != index
  {
    FirstIndex(infos, (m: MonsterInfo) => m.index == index)
  }

  /** A definition whose index no other row shares is the one the look-up finds. */
  lemma FindMonsterInfoAt(infos: seq<MonsterInfo>, i: nat)
    requires i < |infos|
    requires forall j :: 0 <= j < |infos| && j != i ==> infos[j].index != infos[i].index
    ensures FindMonsterInfo(infos, infos[i].index) == Some(i)
  {
    var r := FindMonsterInfo(infos, infos[i].index);
    assert r.Some?;
  }

  /** `MagicInfoList.Binding.FirstOrDefault(m => m.Index == index)`. */
  function FindMagicInfo(infos: seq<MagicInfo>, index: int): (r: Option<nat>)
    ensures r.Some? ==> r.value < |infos| && infos[r.value].index == index
    ensures r.Some? ==> forall j :: 0 <= j < r.value ==> infos[j].index != index
    ensures r.None? <==> forall j :: 0 <= j < |infos| ==> infos[j].index != index
  {
    FirstIndex(infos, (m: MagicInfo) => m.index == index)
  }

  /** `MapInfoList.Binding.FirstOrDefault(m => m.Index == index)`. */
  function FindMapInfo(infos: seq<MapInfo>, index: int): (r: Option<nat>)
    ensures r.Some? ==> r.value < |infos| && infos[r.value].index == index
    ensures r.Some? ==> forall j :: 0 <= j < r.value ==> infos[j].index != index
    ensures r.None? <==> forall j :: 0 <= j < |infos| ==> infos[j].index != index
  {
    FirstIndex(infos, (m: MapInfo) => m.index == index)
  }

  /** A definition whose index no other row shares is the one the look-up finds. */
  lemma FindMapInfoAt(infos: seq<MapInfo>, i: nat)
    requires i < |infos|
    requires forall j :: 0 <= j < |infos| && j != i ==> infos[j].index != infos[i].index
    ensures FindMapInfo(infos, infos[i].index) == Some(i)
  {
    var r := FindMapInfo(infos, infos[i].index);
    assert r.Some?;
  }

  /** The running map whose definition has index `index` (`SEnvir.Maps` keyed by `MapInfo`). */
  function FindLiveMap(maps: seq<LiveMap>, index: int): (r: Option<nat>)
    ensures r.Some? ==> r.value < |maps| && maps[r.value].info.index == index
    ensures r.Some? ==> forall j :: 0 <= j < r.value ==> maps[j].info.index != index
    ensures r.None? <==> forall j :: 0 <= j < |maps| ==> maps[j].info.index != index
  {
    FirstIndex(maps, (m: LiveMap) => m.info.index == index)
  }

  /**
   * The index `CreateNewObject` gives a new catalog row: one above every
   * index in use, so it is fresh.
   */
  function FreshIndex(used: seq<int>): (r: int)
    ensures r >= 1
    ensures forall i :: 0 <= i < |used| ==> used[i] < r
    ensures r == 1 || exists i :: 0 <= i < |used| && r == used[i] + 1
    decreases |used|
  {
    if used == [] then 1
    else
      var r := FreshIndex(used[..|used| - 1]);
      Max(r, used[|used| - 1] + 1)
  }

  /** The index column of a catalog, in row order. */
  function ItemIndices(infos: seq<ItemInfo>): seq<int>
  {
    seq(|infos|, i requires 0 <= i < |infos| => infos[i].index)
  }

  function MonsterIndices(infos: seq<MonsterInfo>): seq<int>
  {
    seq(|infos|, i requires 0 <= i < |infos| => infos[i].index)
  }

  function MapIndices(infos: seq<MapInfo>): seq<int>
  {
    seq(|infos|, i requires 0 <= i < |infos| => infos[i].index)
  }

  /** Catalog indices are unique. */
  predicate UniqueIndices(ixs: seq<int>) {
    forall i, j :: 0 <= i < j < |ixs| ==> ixs[i] != ixs[j]
  }
}
