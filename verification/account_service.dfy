/**
 * The account service behind the accounts page: paging through every
 * account, searching by e-mail or character name, the case-insensitive
 * e-mail look-up, the account count, and the two account changes it
 * offers (the ban flag and the permission level).
 */
module AccountService {
  import opened Base
  import opened Text
  import opened Roles
  import opened Query
  import opened Records
  import opened Envir

  /** The `AccountViewModel` a listing shows for one account. */
  datatype AccountView = AccountView(
    email: String,
    permissionValue: nat,
    gameGold: int,
    huntGold: int,
    banned: bool,
    characterCount: nat,
    characterNames: seq<String>)

  /** `MapToViewModel`: a copy of the account's listed fields. */
  function View(a: Account): (v: AccountView)
    ensures v.email == a.email && v.banned == a.banned
    ensures v.gameGold == a.gameGold && v.huntGold == a.huntGold
    ensures IdentityOf(v.permissionValue) == Some(a.identify)
    ensures v.characterCount == |v.characterNames| == |a.characterNames|
    ensures v.characterNames == a.characterNames
  {
    OrdinalInjective(a.identify, a.identify);
    AccountView(a.email, a.identify.Ordinal(), a.gameGold, a.huntGold, a.banned, |a.characterNames|, a.characterNames)
  }

  function Views(rows: seq<Account>): (r: seq<AccountView>)
    ensures |r| == |rows| && forall i :: 0 <= i < |rows| ==> r[i] == View(rows[i])
  {
    seq(|rows|, i requires 0 <= i < |rows| => View(rows[i]))
  }

  /**
   * One page of `rows`: the views of `Skip((page - 1) * pageSize).Take(pageSize)`,
   * and the number of all rows.
   */
  function Listing(rows: seq<Account>, page: int, pageSize: int): (r: PageResult<AccountView>)
    ensures r.totalCount == |rows|
    ensures |r.items| == Max(0, Min(pageSize, |rows| - PageOffset(page, pageSize)))
    ensures forall i :: 0 <= i < |r.items| ==> r.items[i] == View(rows[PageOffset(page, pageSize) + i])
  {
    PageResult(Views(Paginate(rows, page, pageSize)), |rows|)
  }

  // ---------------------------------------------------------------------
  // Searching

  /** Some character name contains `keyword`, ignoring case. */
  predicate AnyNameContains(names: seq<String>, keyword: String) {
    exists i :: 0 <= i < |names| && ContainsIgnoreCase(names[i], keyword)
  }

  /** The search's `Where`: the e-mail or a character name contains the keyword, ignoring case. */
  function Keep(keyword: String): Account -> bool {
    (a: Account) => ContainsIgnoreCase(a.email, keyword) || AnyNameContains(a.characterNames, keyword)
  }

  /** The rows `SearchAccounts` pages through: all of them for a blank keyword. */
  function Searched(accounts: seq<Account>, keyword: String): (r: seq<Account>)
    ensures IsBlank(keyword) ==> r == accounts
    ensures forall i :: 0 <= i < |r| ==> r[i] in accounts && (IsBlank(keyword) || Keep(keyword)(r[i]))
    ensures forall i :: 0 <= i < |accounts| && Keep(keyword)(accounts[i]) ==> accounts[i] in r
  {
    if IsBlank(keyword) then accounts else Filter(accounts, Keep(keyword))
  }

  /** Two keywords that differ only in letter case find the same accounts. */
  lemma SearchIgnoresCase(accounts: seq<Account>, k1: String, k2: String)
    requires EqualsIgnoreCase(k1, k2)
    ensures Searched(accounts, k1) == Searched(accounts, k2)
  {
    KeywordCaseInvariant(k1, k2, "", "");
    forall a: Account | a in accounts ensures Keep(k1)(a) == Keep(k2)(a) {
      KeywordCaseInvariant(k1, k2, a.email, "");
      forall i | 0 <= i < |a.characterNames|
        ensures ContainsIgnoreCase(a.characterNames[i], k1) == ContainsIgnoreCase(a.characterNames[i], k2)
      {
        KeywordCaseInvariant(k1, k2, a.characterNames[i], "");
      }
    }
    FilterSame(accounts, Keep(k1), Keep(k2));
  }

  /** `GetAllAccounts`: the page of views is built by a `foreach` over the skipped-and-taken rows. */
  method GetAllAccounts(accounts: seq<Account>, page: int, pageSize: int) returns (r: PageResult<AccountView>)
    ensures r == Listing(accounts, page, pageSize)
  {
    var rows := Take(Skip(accounts, (page - 1) * pageSize), pageSize);
    var views: seq<AccountView> := [];
    for i := 0 to |rows|
      invariant views == Views(rows[..i])
    {
      views := views + [View(rows[i])];
    }
    assert rows[..|rows|] == rows;
    return PageResult(views, |accounts|);
  }

  /** `SearchAccounts`: filter unless the keyword is blank, count, then page as `GetAllAccounts` does. */
  method SearchAccounts(accounts: seq<Account>, keyword: String, page: int, pageSize: int)
    returns (r: PageResult<AccountView>)
    ensures r == Listing(Searched(accounts, keyword), page, pageSize)
  {
    var query := accounts;
    if !IsBlank(keyword) {
      query := Filter(accounts, Keep(keyword));
    }
    var rows := Take(Skip(query, (page - 1) * pageSize), pageSize);
    var views: seq<AccountView> := [];
    for i := 0 to |rows|
      invariant views == Views(rows[..i])
    {
      views := views + [View(rows[i])];
    }
    assert rows[..|rows|] == rows;
    return PageResult(views, |query|);
  }

  /** `GetAccountCount`: the number of accounts, which is what a blank search counts. */
  function GetAccountCount(accounts: seq<Account>): (r: nat)
    ensures r == Listing(accounts, 1, 1).totalCount
    ensures forall keyword :: IsBlank(keyword) ==> r == |Searched(accounts, keyword)|
  {
    |accounts|
  }

  // ---------------------------------------------------------------------
  // Finding an account by e-mail

  /** The first account whose e-mail equals `email`, ignoring case. */
  function EmailIndex(accounts: seq<Account>, email: String): (r: Option<nat>)
    ensures r.Some? ==> r.value < |accounts| && EqualsIgnoreCase(accounts[r.value].email, email)
    ensures r.Some? ==> forall j :: 0 <= j < r.value ==> !EqualsIgnoreCase(accounts[j].email, email)
    ensures r.None? <==> forall j :: 0 <= j < |accounts| ==> !EqualsIgnoreCase(accounts[j].email, email)
  {
    FirstIndex(accounts, (a: Account) => EqualsIgnoreCase(a.email, email))
  }

  /** `FindAccountByEmail`: the indexed `for` loop that stops at the first match. */
  method FindAccountByEmail(accounts: seq<Account>, email: String) returns (r: Option<nat>)
    ensures r == EmailIndex(accounts, email)
  {
    var i := 0;
    while i < |accounts|
      invariant i <= |accounts|
      invariant forall j :: 0 <= j < i ==> !EqualsIgnoreCase(accounts[j].email, email)
    {
      if EqualsIgnoreCase(accounts[i].email, email) {
        return Some(i);
      }
      i := i + 1;
    }
    return None;
  }

  /** E-mails that differ only in letter case find the same account. */
  lemma EmailIndexIgnoresCase(accounts: seq<Account>, e1: String, e2: String)
    requires EqualsIgnoreCase(e1, e2)
    ensures EmailIndex(accounts, e1) == EmailIndex(accounts, e2)
  {
    var r1, r2 := EmailIndex(accounts, e1), EmailIndex(accounts, e2);
    if r1.Some? && r2.Some? {
      assert !(r1.value < r2.value) && !(r2.value < r1.value);
    }
  }

  /** Replacing an account by one with the same e-mail does not change any look-up. */
  lemma {:induction false} EmailIndexKept(accounts: seq<Account>, i: nat, a: Account, email: String)
    requires i < |accounts| && a.email == accounts[i].email
    ensures EmailIndex(accounts[i := a], email) == EmailIndex(accounts, email)
  {
    var after := accounts[i := a];
    assert forall j :: 0 <= j < |accounts| ==> after[j].email == accounts[j].email;
    var r1, r2 := EmailIndex(after, email), EmailIndex(accounts, email);
    if r1.Some? && r2.Some? {
      assert !(r1.value < r2.value) && !(r2.value < r1.value);
    }
  }

  // ---------------------------------------------------------------------
  // Banning and permissions

  /** The accounts after `BanAccount(email, banned)`: only the found account's flag changes. */
  function SetBanned(accounts: seq<Account>, email: String, banned: bool): (r: seq<Account>)
    ensures |r| == |accounts|
    ensures EmailIndex(accounts, email).None? ==> r == accounts
    ensures EmailIndex(accounts, email).Some? ==>
      var i := EmailIndex(accounts, email).value;
      r[i] == accounts[i].(banned := banned)
      && forall j :: 0 <= j < |r| && j != i ==> r[j] == accounts[j]
  {
    match EmailIndex(accounts, email)
    case None => accounts
    case Some(i) => accounts[i := accounts[i].(banned := banned)]
  }

  /** The last of two ban changes wins; repeating a ban changes nothing more. */
  lemma SetBannedTwice(accounts: seq<Account>, email: String, b1: bool, b2: bool)
    ensures SetBanned(SetBanned(accounts, email, b1), email, b2) == SetBanned(accounts, email, b2)
  {
    var i := EmailIndex(accounts, email);
    if i.Some? {
      EmailIndexKept(accounts, i.value, accounts[i.value].(banned := b1), email);
    }
  }

  /** Unbanning a freshly banned account that was not banned restores every account. */
  lemma BanThenUnban(accounts: seq<Account>, email: String)
    requires EmailIndex(accounts, email).Some? ==> !accounts[EmailIndex(accounts, email).value].banned
    ensures SetBanned(SetBanned(accounts, email, true), email, false) == accounts
  {
    SetBannedTwice(accounts, email, true, false);
    var i := EmailIndex(accounts, email);
    if i.Some? {
      assert accounts[i.value].(banned := false) == accounts[i.value];
    }
  }

  /** `BanAccount`: false for an unknown e-mail, else the flag is set and the result is true. */
  method BanAccount(world: World, email: String, banned: bool) returns (ok: bool)
    modifies world`accounts
    ensures ok <==> EmailIndex(old(world.accounts), email).Some?
    ensures world.accounts == SetBanned(old(world.accounts), email, banned)
  {
    var i := FindAccountByEmail(world.accounts, email);
    if i.None? {
      return false;
    }
    world.accounts := world.accounts[i.value := world.accounts[i.value].(banned := banned)];
    return true;
  }

  /** The accounts after `SetPermission(email, identity)`: only the found account's level changes. */
  function SetIdentity(accounts: seq<Account>, email: String, identity: AccountIdentity): (r: seq<Account>)
    ensures |r| == |accounts|
    ensures EmailIndex(accounts, email).None? ==> r == accounts
    ensures EmailIndex(accounts, email).Some? ==>
      var i := EmailIndex(accounts, email).value;
      r[i] == accounts[i].(identify := identity)
      && forall j :: 0 <= j < |r| && j != i ==> r[j] == accounts[j]
  {
    match EmailIndex(accounts, email)
    case None => accounts
    case Some(i) => accounts[i := accounts[i].(identify := identity)]
  }

  /** After a permission change the account found by that e-mail holds the new level. */
  lemma SetIdentityThenFind(accounts: seq<Account>, email: String, identity: AccountIdentity)
    requires EmailIndex(accounts, email).Some?
    ensures var after := SetIdentity(accounts, email, identity);
      EmailIndex(after, email).Some? && after[EmailIndex(after, email).value].identify == identity
  {
    var i := EmailIndex(accounts, email).value;
    EmailIndexKept(accounts, i, accounts[i].(identify := identity), email);
  }

  /** `SetPermission`: false for an unknown e-mail, else the level is set and the result is true. */
  method SetPermission(world: World, email: String, identity: AccountIdentity) returns (ok: bool)
    modifies world`accounts
    ensures ok <==> EmailIndex(old(world.accounts), email).Some?
    ensures world.accounts == SetIdentity(old(world.accounts), email, identity)
  {
    var i := FindAccountByEmail(world.accounts, email);
    if i.None? {
      return false;
    }
    world.accounts := world.accounts[i.value := world.accounts[i.value].(identify := identity)];
    return true;
  }
}
