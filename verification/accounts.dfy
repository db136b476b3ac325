/**
 * The accounts page: its page state (keyword, page number, the listed
 * accounts and their count), the listing it reloads after every command,
 * banning and unbanning, adjusting an account's game gold and forwarding
 * a permission change.
 */
module Accounts {
  import opened Base
  import opened Text
  import opened Roles
  import opened Outcomes
  import opened Query
  import opened Records
  import opened Envir
  import opened AccountService

  /** Accounts per page. */
  const PageSize: int := 10

  /** `PageNumber > 0 ? PageNumber : 1`. */
  function CurrentPageOf(pageNumber: int): (r: int)
    ensures r >= 1
    ensures pageNumber > 0 ==> r == pageNumber
    ensures pageNumber <= 0 ==> r == 1
  {
    if pageNumber > 0 then pageNumber else 1
  }

  // ---------------------------------------------------------------------
  // Adjusting game gold

  /**
   * The gold update as written: the 32-bit sum `GameGold + amount`, raised
   * to 0 when negative. A sum past `int.MaxValue` wraps to a negative
   * value, so the balance drops to 0.
   */
  function AddGoldAsWritten(gold: int, amount: int): (r: int)
    ensures r >= 0 && IsInt32(r)
    ensures Wrap32(gold + amount) >= 0 ==> r == Wrap32(gold + amount)
    ensures Wrap32(gold + amount) < 0 ==> r == 0
  {
    var newGold := Wrap32(gold + amount);
    if newGold < 0 then 0 else newGold
  }

  /** Adding 500,000,000 gold to a balance of 2,000,000,000 leaves the account with none. */
  lemma AddGoldAsWrittenLoses()
    ensures AddGoldAsWritten(2000000000, 500000000) == 0
  {
    var x := 2000000000 + 500000000;
    var k :| Wrap32(x) == x + k * TwoTo32;
    assert k == -1;
  }

  /**
   * The gold update as intended: the exact sum, kept within `[0, int.MaxValue]`,
   * so a gain never lowers the balance and a loss never raises it.
   */
  function AddGold(gold: int, amount: int): (r: int)
    ensures 0 <= r <= Int32Max
    ensures 0 <= gold + amount <= Int32Max ==> r == gold + amount
    ensures gold + amount < 0 ==> r == 0
    ensures 0 <= gold <= Int32Max && amount >= 0 ==> gold <= r
    ensures 0 <= gold <= Int32Max && amount <= 0 ==> r <= gold
  {
    Clamp(gold + amount, 0, Int32Max)
  }

  /** Where the 32-bit sum does not overflow, the written update and the intended one agree. */
  lemma AddGoldAgrees(gold: int, amount: int)
    requires IsInt32(gold + amount)
    ensures AddGoldAsWritten(gold, amount) == AddGold(gold, amount)
  {
  }

  /** Taking back an adjustment that was not cut off restores the balance. */
  lemma AddGoldUndo(gold: int, amount: int)
    requires 0 <= gold <= Int32Max && 0 <= gold + amount <= Int32Max
    ensures AddGold(AddGold(gold, amount), -amount) == gold
  {
  }

  // ---------------------------------------------------------------------
  // The page

  class AccountsPage {
    /** `Keyword` (a missing keyword is the empty string). */
    var keyword: String
    /** `PageNumber`, as requested. */
    var pageNumber: int
    /** `CurrentPage`, the page shown. */
    var currentPage: int
    /** `Accounts`, the views on the page shown. */
    var shown: seq<AccountView>
    /** `TotalCount`, the number of accounts the listing selects. */
    var totalCount: nat

    /** The page state is the listing of `accounts` for the keyword and page number. */
    predicate Shows(accounts: seq<Account>)
      reads this
    {
      currentPage == CurrentPageOf(pageNumber)
      && PageResult(shown, totalCount) == Listing(Searched(accounts, keyword), currentPage, PageSize)
    }

    /** `TotalPages`: the ceiling of `TotalCount / PageSize`. */
    function TotalPages(): (r: nat)
      reads this
      ensures r * PageSize >= totalCount
      ensures r > 0 ==> (r - 1) * PageSize < totalCount
    {
      Query.TotalPages(totalCount, PageSize)
    }

    /**
     * `OnGet`: normalise the page number, then search for a non-blank
     * keyword or list every account.
     */
    method OnGet(world: World)
      modifies this`currentPage, this`shown, this`totalCount
      ensures Shows(world.accounts)
    {
      currentPage := if pageNumber > 0 then pageNumber else 1;
      var result: PageResult<AccountView>;
      if !IsBlank(keyword) {
        result := SearchAccounts(world.accounts, keyword, currentPage, PageSize);
      } else {
        result := GetAllAccounts(world.accounts, currentPage, PageSize);
      }
      shown := result.items;
      totalCount := result.totalCount;
    }

    /**
     * `OnPostBan`: Admin only; the account service sets the flag, an
     * unknown e-mail is reported, and the listing is reloaded on that e-mail.
     */
    method Ban(world: World, claim: Option<String>, email: String) returns (r: Outcome<()>)
      modifies this`keyword, this`currentPage, this`shown, this`totalCount, world`accounts
      ensures !HasPermission(claim, Admin) ==>
        r == Fail(Denied(Admin)) && world.accounts == old(world.accounts) && keyword == old(keyword)
      ensures HasPermission(claim, Admin) ==>
        world.accounts == SetBanned(old(world.accounts), email, true) && keyword == email
        && (EmailIndex(old(world.accounts), email).None? ==> r == Fail(NoAccount))
        && (EmailIndex(old(world.accounts), email).Some? ==> r == Ok(()))
      ensures Shows(world.accounts)
    {
      if !HasPermission(claim, Admin) {
        OnGet(world);
        return Fail(Denied(Admin));
      }
      var ok := BanAccount(world, email, true);
      r := if ok then Ok(()) else Fail(NoAccount);
      keyword := email;
      OnGet(world);
    }

    /** `OnPostUnban`: as `Ban`, clearing the flag. */
    method Unban(world: World, claim: Option<String>, email: String) returns (r: Outcome<()>)
      modifies this`keyword, this`currentPage, this`shown, this`totalCount, world`accounts
      ensures !HasPermission(claim, Admin) ==>
        r == Fail(Denied(Admin)) && world.accounts == old(world.accounts) && keyword == old(keyword)
      ensures HasPermission(claim, Admin) ==>
        world.accounts == SetBanned(old(world.accounts), email, false) && keyword == email
        && (EmailIndex(old(world.accounts), email).None? ==> r == Fail(NoAccount))
        && (EmailIndex(old(world.accounts), email).Some? ==> r == Ok(()))
      ensures Shows(world.accounts)
    {
      if !HasPermission(claim, Admin) {
        OnGet(world);
        return Fail(Denied(Admin));
      }
      var ok := BanAccount(world, email, false);
      r := if ok then Ok(()) else Fail(NoAccount);
      keyword := email;
      OnGet(world);
    }

    /**
     * `OnPostModifyGold`: Admin only; the page's own e-mail look-up finds
     * the account, whose balance becomes `AddGold(GameGold, amount)`; the
     * result is the new balance. An unknown e-mail changes nothing.
     */
    method ModifyGold(world: World, claim: Option<String>, email: String, amount: int) returns (r: Outcome<int>)
      modifies this`keyword, this`currentPage, this`shown, this`totalCount, world`accounts
      ensures !HasPermission(claim, Admin) ==>
        r == Fail(Denied(Admin)) && world.accounts == old(world.accounts) && keyword == old(keyword)
      ensures (HasPermission(claim, Admin) && EmailIndex(old(world.accounts), email).None?) ==>
        r == Fail(NoAccount) && world.accounts == old(world.accounts) && keyword == email
      ensures (HasPermission(claim, Admin) && EmailIndex(old(world.accounts), email).Some?) ==>
        var i := EmailIndex(old(world.accounts), email).value;
        var gold := AddGold(old(world.accounts)[i].gameGold, amount);
        r == Ok(gold) && keyword == email
        && world.accounts == old(world.accounts)[i := old(world.accounts)[i].(gameGold := gold)]
      ensures Shows(world.accounts)
    {
      if !HasPermission(claim, Admin) {
        OnGet(world);
        return Fail(Denied(Admin));
      }
      var i := FindAccountByEmail(world.accounts, email);
      if i.None? {
        r := Fail(NoAccount);
      } else {
        var account := world.accounts[i.value];
        var newGold := AddGold(account.gameGold, amount);
        world.accounts := world.accounts[i.value := account.(gameGold := newGold)];
        r := Ok(newGold);
      }
      keyword := email;
      OnGet(world);
    }

    /**
     * `OnPostSetPermission`: SuperAdmin only, and the value must be one of
     * the five levels; both checks come before anything changes. A valid
     * request is handed to the authentication service as the level
     * returned here; this page changes no account itself.
     */
    method SetPermission(world: World, claim: Option<String>, email: String, permission: int)
      returns (r: Outcome<AccountIdentity>)
      modifies this`keyword, this`currentPage, this`shown, this`totalCount
      ensures !HasPermission(claim, SuperAdmin) ==> r == Fail(Denied(SuperAdmin)) && keyword == old(keyword)
      ensures (HasPermission(claim, SuperAdmin) && !(0 <= permission <= 4)) ==>
        r == Fail(InvalidPermission(permission)) && keyword == old(keyword)
      ensures (HasPermission(claim, SuperAdmin) && 0 <= permission <= 4) ==>
        r.Ok? && r.value.Ordinal() == permission && r.value == PermissionLevels()[permission] && keyword == email
      ensures Shows(world.accounts)
    {
      if !HasPermission(claim, SuperAdmin) {
        OnGet(world);
        return Fail(Denied(SuperAdmin));
      }
      if permission < 0 || permission > 4 {
        OnGet(world);
        return Fail(InvalidPermission(permission));
      }
      var identity := IdentityOf(permission).value;
      r := Ok(identity);
      keyword := email;
      OnGet(world);
    }
  }
}
