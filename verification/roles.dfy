/**
 * The role gate every admin page repeats: the caller's `Permission` claim,
 * parsed as an integer, must be at least the ordinal of the required role.
 */
module Roles {
  import opened Base
  import opened Text

  /** `AccountIdentity`, lowest to highest. */
  datatype AccountIdentity = Normal | Supervisor | Operator | Admin | SuperAdmin {
    function Ordinal(): nat {
      match this
      case Normal => 0
      case Supervisor => 1
      case Operator => 2
      case Admin => 3
      case SuperAdmin => 4
    }
  }

  /** `(AccountIdentity)n` for the values the permission form offers. */
  function IdentityOf(n: int): (r: Option<AccountIdentity>)
    ensures r.Some? <==> 0 <= n <= 4
    ensures r.Some? ==> r.value.Ordinal() == n
  {
    if n == 0 then Some(Normal)
    else if n == 1 then Some(Supervisor)
    else if n == 2 then Some(Operator)
    else if n == 3 then Some(Admin)
    else if n == 4 then Some(SuperAdmin)
    else None
  }

  /** The drop-down of selectable permission levels on the accounts page. */
  function PermissionLevels(): (r: seq<AccountIdentity>)
    ensures |r| == 5
    ensures forall i :: 0 <= i < |r| ==> r[i].Ordinal() == i
    ensures forall a: AccountIdentity :: r[a.Ordinal()] == a
  {
    [Normal, Supervisor, Operator, Admin, SuperAdmin]
  }

  /**
   * `HasPermission(required)`. The claim is the value of the caller's
   * `Permission` claim, `None` when the caller has none.
   */
  predicate HasPermission(claim: Option<String>, required: AccountIdentity) {
    claim.Some? && claim.value != ""
    && ParseInt32(claim.value).Some?
    && ParseInt32(claim.value).value >= required.Ordinal()
  }

  /** A claim holding the rendering of `v` passes exactly the roles at or below `v`. */
  lemma HasPermissionOfRendered(v: int, required: AccountIdentity)
    requires IsInt32(v)
    ensures HasPermission(Some(IntToString(v)), required) <==> v >= required.Ordinal()
  {
    ParseRendered(v);
  }

  /** A missing, empty or non-numeric claim passes no role at all. */
  lemma NoNumberNoPermission(claim: Option<String>, required: AccountIdentity)
    requires claim.None? || ParseInt32(claim.value).None?
    ensures !HasPermission(claim, required)
  {
  }

  /** Roles are ordered: passing a higher role implies passing every lower one. */
  lemma HasPermissionMonotone(claim: Option<String>, lower: AccountIdentity, higher: AccountIdentity)
    requires lower.Ordinal() <= higher.Ordinal()
    ensures HasPermission(claim, higher) ==> HasPermission(claim, lower)
  {
  }

  /** Distinct roles have distinct ordinals, so the order is strict and total. */
  lemma OrdinalInjective(a: AccountIdentity, b: AccountIdentity)
    ensures a.Ordinal() == b.Ordinal() ==> a == b
    ensures IdentityOf(a.Ordinal()) == Some(a)
  {
  }
}

/** The uniform result every admin command reports. */
module Outcomes {
  import opened Roles

  /** Why a command failed; each is reported, never thrown. */
  datatype Why =
    | Denied(required: AccountIdentity)
    | PlayerOffline
    | AdminOffline
    | NoCurrentMap
    | NotFound(index: int)
    | BlankName
    | NonPositiveLevels
    | AboveMaxLevel(max: int, current: int, attempted: int)
    | BagFull
    | NotLearned(magicIndex: int)
    | InvalidPermission(value: int)
    | NoAccount

  datatype Outcome<+T> = Ok(value: T) | Fail(why: Why)
}
