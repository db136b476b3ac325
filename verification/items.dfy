/**
 * The items page: the paged item catalog with its keyword and item-type
 * filters, the detail view, giving an item to an online player, and
 * creating and editing item definitions.
 */
module Items {
  import opened Base
  import opened Text
  import opened Roles
  import opened Outcomes
  import opened Query
  import opened Records
  import opened Envir

  const PageSize: int := 50

  // ---------------------------------------------------------------------
  // Listing

  /** The keyword filter, then the item-type filter when one is in force. */
  function Matches(keyword: String, typeFilter: Option<int>): ItemInfo -> bool {
    (i: ItemInfo) => KeywordMatch(i.form.itemName, i.index, keyword)
      && (typeFilter.None? || i.form.itemType == typeFilter.value)
  }

  function ItemKey(i: ItemInfo): seq<int> {
    [i.form.itemType, i.form.requiredAmount]
  }

  /**
   * `LoadItems`: `TotalCount` counts the matching items and the page holds
   * the `page`-th run of fifty of them, by item type and then required amount.
   */
  function LoadItems(infos: seq<ItemInfo>, keyword: String, itemType: String, parseType: String -> Option<int>, page: int)
    : (r: PageResult<ItemInfo>)
    ensures r.totalCount == |Filter(infos, Matches(keyword, EnumFilter(itemType, parseType)))|
    ensures r.items == Paginate(SortBy(Filter(infos, Matches(keyword, EnumFilter(itemType, parseType))), ItemKey), page, PageSize)
    ensures |r.items| == Max(0, Min(PageSize, r.totalCount - PageOffset(page, PageSize)))
    ensures forall i :: 0 <= i < |r.items| ==>
      r.items[i] in infos && KeywordMatch(r.items[i].form.itemName, r.items[i].index, keyword)
    ensures EnumFilter(itemType, parseType).Some? ==>
      forall i :: 0 <= i < |r.items| ==> r.items[i].form.itemType == EnumFilter(itemType, parseType).value
    ensures forall i, j :: 0 <= i < j < |r.items| ==>
      r.items[i].form.itemType < r.items[j].form.itemType
      || (r.items[i].form.itemType == r.items[j].form.itemType
          && r.items[i].form.requiredAmount <= r.items[j].form.requiredAmount)
  {
    var r := RunQuery(infos, Matches(keyword, EnumFilter(itemType, parseType)), ItemKey, page, PageSize);
    forall i, j | 0 <= i < j < |r.items|
      ensures r.items[i].form.itemType < r.items[j].form.itemType
        || (r.items[i].form.itemType == r.items[j].form.itemType
            && r.items[i].form.requiredAmount <= r.items[j].form.requiredAmount)
    {
      LexLePair(r.items[i].form.itemType, r.items[i].form.requiredAmount,
                r.items[j].form.itemType, r.items[j].form.requiredAmount);
    }
    r
  }

  /** A type string that does not parse filters nothing: the listing is the keyword-only one. */
  lemma UnparsedTypeIgnored(infos: seq<ItemInfo>, keyword: String, itemType: String, parseType: String -> Option<int>, page: int)
    requires parseType(itemType).None?
    ensures LoadItems(infos, keyword, itemType, parseType, page) == LoadItems(infos, keyword, "", parseType, page)
  {
    assert IsBlank("");
  }

  /** The keyword filter ignores letter case. */
  lemma LoadItemsIgnoresCase(infos: seq<ItemInfo>, k1: String, k2: String, itemType: String, parseType: String -> Option<int>, page: int)
    requires EqualsIgnoreCase(k1, k2)
    ensures LoadItems(infos, k1, itemType, parseType, page) == LoadItems(infos, k2, itemType, parseType, page)
  {
    var t := EnumFilter(itemType, parseType);
    forall i | 0 <= i < |infos| ensures Matches(k1, t)(infos[i]) == Matches(k2, t)(infos[i]) {
      KeywordMatchIgnoresCase(infos[i].form.itemName, infos[i].index, k1, k2);
    }
    FilterSame(infos, Matches(k1, t), Matches(k2, t));
  }

  // ---------------------------------------------------------------------
  // Detail view and editing

  /** `OnGetItemDetail`: Admin only; an unknown index is reported. */
  function GetItemDetail(infos: seq<ItemInfo>, claim: Option<String>, itemIndex: int): (r: Outcome<ItemInfo>)
    ensures !HasPermission(claim, Admin) ==> r == Fail(Denied(Admin))
    ensures HasPermission(claim, Admin) ==> (r.Fail? <==> FindItemInfo(infos, itemIndex).None?)
    ensures r.Fail? ==> r.why == Denied(Admin) || r.why == NotFound(itemIndex)
    ensures r.Ok? ==> r.value in infos && r.value.index == itemIndex
    ensures r.Ok? ==> exists i :: (0 <= i < |infos| && r.value == infos[i]
                                   && forall j :: 0 <= j < i ==> infos[j].index != itemIndex)
  {
    if !HasPermission(claim, Admin) then Fail(Denied(Admin))
    else match FindItemInfo(infos, itemIndex)
      case None => Fail(NotFound(itemIndex))
      case Some(i) => Ok(infos[i])
  }

  /** The form as stored: a stack size below one is stored as one. */
  function Stored(form: ItemForm): (r: ItemForm)
    ensures r.stackSize >= 1
    ensures form.stackSize >= 1 ==> r == form
    ensures form.stackSize < 1 ==> r == form.(stackSize := 1)
  {
    form.(stackSize := if form.stackSize > 0 then form.stackSize else 1)
  }

  /** Storing a stored form changes nothing. */
  lemma StoredIdempotent(form: ItemForm)
    ensures Stored(Stored(form)) == Stored(form)
  {
  }

  /**
   * `OnPostCreateItem`: SuperAdmin only; a blank name is refused. The new
   * definition gets a fresh index and the posted fields.
   */
  method CreateItem(world: World, claim: Option<String>, form: ItemForm) returns (r: Outcome<int>)
    modifies world`itemInfos
    ensures !HasPermission(claim, SuperAdmin) ==> r == Fail(Denied(SuperAdmin))
    ensures HasPermission(claim, SuperAdmin) && IsBlank(form.itemName) ==> r == Fail(BlankName)
    ensures HasPermission(claim, SuperAdmin) && !IsBlank(form.itemName) ==> r.Ok?
    ensures r.Fail? ==> world.itemInfos == old(world.itemInfos)
    ensures r.Ok? ==>
      r.value == FreshIndex(ItemIndices(old(world.itemInfos)))
      && world.itemInfos == old(world.itemInfos) + [ItemInfo(r.value, Stored(form))]
  {
    if !HasPermission(claim, SuperAdmin) {
      return Fail(Denied(SuperAdmin));
    }
    if IsBlank(form.itemName) {
      return Fail(BlankName);
    }
    var index := FreshIndex(ItemIndices(world.itemInfos));
    world.itemInfos := world.itemInfos + [ItemInfo(index, Stored(form))];
    return Ok(index);
  }

  /**
   * `OnPostUpdateItem`: SuperAdmin only; the definition must exist. Its
   * fields are replaced by the posted ones (a blank name is not refused here).
   */
  method UpdateItem(world: World, claim: Option<String>, itemIndex: int, form: ItemForm) returns (r: Outcome<()>)
    modifies world`itemInfos
    ensures !HasPermission(claim, SuperAdmin) ==> r == Fail(Denied(SuperAdmin))
    ensures HasPermission(claim, SuperAdmin) ==>
      (r.Fail? <==> FindItemInfo(old(world.itemInfos), itemIndex).None?)
    ensures r.Fail? ==> world.itemInfos == old(world.itemInfos)
    ensures r.Ok? ==>
      FindItemInfo(old(world.itemInfos), itemIndex).Some?
      && world.itemInfos == old(world.itemInfos)[FindItemInfo(old(world.itemInfos), itemIndex).value := ItemInfo(itemIndex, Stored(form))]
  {
    if !HasPermission(claim, SuperAdmin) {
      return Fail(Denied(SuperAdmin));
    }
    var i := FindItemInfo(world.itemInfos, itemIndex);
    if i.None? {
      return Fail(NotFound(itemIndex));
    }
    world.itemInfos := world.itemInfos[i.value := ItemInfo(itemIndex, Stored(form))];
    return Ok(());
  }

  /** Creating an item and reading its detail back returns the stored form under the new index. */
  lemma CreateThenDetail(infos: seq<ItemInfo>, claim: Option<String>, form: ItemForm)
    requires HasPermission(claim, Admin)
    ensures var index := FreshIndex(ItemIndices(infos));
      GetItemDetail(infos + [ItemInfo(index, Stored(form))], claim, index) == Ok(ItemInfo(index, Stored(form)))
  {
    var index := FreshIndex(ItemIndices(infos));
    var after := infos + [ItemInfo(index, Stored(form))];
    assert forall j :: 0 <= j < |infos| ==> ItemIndices(infos)[j] == infos[j].index;
    assert forall j :: 0 <= j < |after| && j != |infos| ==> after[j].index != after[|infos|].index;
    FindItemInfoAt(after, |infos|);
  }

  /** Updating an item and reading its detail back returns the stored form. */
  lemma UpdateThenDetail(infos: seq<ItemInfo>, claim: Option<String>, i: nat, form: ItemForm)
    requires HasPermission(claim, Admin)
    requires i < |infos| && UniqueIndices(ItemIndices(infos))
    ensures var index := infos[i].index;
      GetItemDetail(infos[i := ItemInfo(index, Stored(form))], claim, index) == Ok(ItemInfo(index, Stored(form)))
  {
    var index := infos[i].index;
    var after := infos[i := ItemInfo(index, Stored(form))];
    forall j | 0 <= j < |after| && j != i ensures after[j].index != after[i].index {
      assert ItemIndices(infos)[j] != ItemIndices(infos)[i];
    }
    FindItemInfoAt(after, i);
  }

  // ---------------------------------------------------------------------
  // Giving an item

  /** What a successful gift reports: the count given and the count the message quotes. */
  datatype GiveReport = GiveReport(given: int, quoted: int)

  /** `item.Count = count > 0 ? count : 1`. */
  function GivenCount(count: int): (r: int)
    ensures r >= 1
    ensures count >= 1 ==> r == count
    ensures count < 1 ==> r == 1
  {
    if count > 0 then count else 1
  }

  /**
   * `OnPostGiveItem`: Admin only; the player must be online and the
   * definition must exist. A fresh stack of at least one item goes to the
   * player's bag when `canGain` (`CanGainItems`) allows it; otherwise the
   * bag is full and nothing changes.
   */
  method GiveItem(world: World, claim: Option<String>, playerName: String, itemIndex: int, count: int,
                  canGain: (Player, ItemStack) -> bool)
    returns (r: Outcome<GiveReport>)
    modifies world`players
    ensures !HasPermission(claim, Admin) ==> r == Fail(Denied(Admin))
    ensures HasPermission(claim, Admin) && FindPlayer(old(world.players), playerName).None? ==> r == Fail(PlayerOffline)
    ensures (HasPermission(claim, Admin) && FindPlayer(old(world.players), playerName).Some?
      && FindItemInfo(world.itemInfos, itemIndex).None?) ==> r == Fail(NotFound(itemIndex))
    ensures r.Fail? ==> world.players == old(world.players)
    ensures (HasPermission(claim, Admin) && FindPlayer(old(world.players), playerName).Some?
      && FindItemInfo(world.itemInfos, itemIndex).Some?) ==>
      var pi := FindPlayer(old(world.players), playerName).value;
      var stack := ItemStack(itemIndex, GivenCount(count));
      if canGain(old(world.players)[pi], stack) then
        r == Ok(GiveReport(GivenCount(count), count))
        && world.players == old(world.players)[pi := old(world.players)[pi].(bag := old(world.players)[pi].bag + [stack])]
      else r == Fail(BagFull)
  {
    if !HasPermission(claim, Admin) {
      return Fail(Denied(Admin));
    }
    var pi := FindPlayer(world.players, playerName);
    if pi.None? {
      return Fail(PlayerOffline);
    }
    var info := FindItemInfo(world.itemInfos, itemIndex);
    if info.None? {
      return Fail(NotFound(itemIndex));
    }
    var player := world.players[pi.value];
    var stack := ItemStack(itemIndex, GivenCount(count));
    if !canGain(player, stack) {
      return Fail(BagFull);
    }
    world.players := world.players[pi.value := player.(bag := player.bag + [stack])];
    return Ok(GiveReport(stack.count, count));
  }
}
