/**
 * The players page: recalling a player to the calling administrator,
 * kicking a player, and raising a player's level. The online-player
 * look-up of the page's player service is the same case-insensitive name
 * look-up the other pages use.
 */
module Players {
  import opened Base
  import opened Text
  import opened Roles
  import opened Outcomes
  import opened Records
  import opened Envir

  /** The first online player whose account e-mail equals `email`, ignoring case; none without an e-mail. */
  function FindByEmail(players: seq<Player>, email: Option<String>): (r: Option<nat>)
    ensures email.None? ==> r.None?
    ensures r.Some? ==> r.value < |players| && EqualsIgnoreCase(players[r.value].accountEmail, email.value)
    ensures r.Some? ==> forall j :: 0 <= j < r.value ==> !EqualsIgnoreCase(players[j].accountEmail, email.value)
    ensures email.Some? && r.None? ==> forall j :: 0 <= j < |players| ==> !EqualsIgnoreCase(players[j].accountEmail, email.value)
  {
    if email.None? then None
    else Query.FirstIndex(players, (p: Player) => EqualsIgnoreCase(p.accountEmail, email.value))
  }

  /**
   * `OnPostRecall` (no role is required): the target must be online and so
   * must the caller, found by the e-mail of the signed-in account. The
   * target moves to the caller's map and cell.
   */
  method Recall(world: World, adminEmail: Option<String>, playerName: String) returns (r: Outcome<()>)
    modifies world`players
    ensures FindPlayer(old(world.players), playerName).None? ==> r == Fail(PlayerOffline)
    ensures FindPlayer(old(world.players), playerName).Some? && FindByEmail(old(world.players), adminEmail).None? ==>
      r == Fail(AdminOffline)
    ensures r.Fail? ==> world.players == old(world.players)
    ensures r.Ok? ==>
      FindPlayer(old(world.players), playerName).Some? && FindByEmail(old(world.players), adminEmail).Some?
      && var ti := FindPlayer(old(world.players), playerName).value;
      var admin := old(world.players)[FindByEmail(old(world.players), adminEmail).value];
      world.players == old(world.players)[ti := old(world.players)[ti].(mapIndex := admin.mapIndex, location := admin.location)]
    ensures FindPlayer(old(world.players), playerName).Some? && FindByEmail(old(world.players), adminEmail).Some? ==> r.Ok?
    ensures world.players == Recalled(old(world.players), adminEmail, playerName)
  {
    var ti := FindPlayer(world.players, playerName);
    if ti.None? {
      return Fail(PlayerOffline);
    }
    var ai := FindByEmail(world.players, adminEmail);
    if ai.None? {
      return Fail(AdminOffline);
    }
    var admin := world.players[ai.value];
    var target := world.players[ti.value];
    world.players := world.players[ti.value := target.(mapIndex := admin.mapIndex, location := admin.location)];
    return Ok(());
  }

  /** Two rosters with the same names and e-mails, seat by seat, answer both look-ups alike. */
  lemma SameLookups(a: seq<Player>, b: seq<Player>, name: String, email: Option<String>)
    requires |a| == |b|
    requires forall j :: 0 <= j < |a| ==> a[j].name == b[j].name && a[j].accountEmail == b[j].accountEmail
    ensures FindPlayer(a, name) == FindPlayer(b, name)
    ensures FindByEmail(a, email) == FindByEmail(b, email)
  {
    Query.FirstIndexSame(a, (p: Player) => EqualsIgnoreCase(p.name, name), b, (p: Player) => EqualsIgnoreCase(p.name, name));
    if email.Some? {
      Query.FirstIndexSame(a, (p: Player) => EqualsIgnoreCase(p.accountEmail, email.value),
                     b, (p: Player) => EqualsIgnoreCase(p.accountEmail, email.value));
    }
  }

  /**
   * The roster after a recall: when both are online the target shares the
   * caller's map and cell, and nobody else moves; otherwise nothing
   * changes. Names and e-mails stay, so both look-ups answer as before.
   */
  function Recalled(players: seq<Player>, adminEmail: Option<String>, playerName: String): (r: seq<Player>)
    ensures |r| == |players|
    ensures forall j :: 0 <= j < |r| ==> r[j].name == players[j].name && r[j].accountEmail == players[j].accountEmail
    ensures FindPlayer(players, playerName).None? || FindByEmail(players, adminEmail).None? ==> r == players
    ensures FindPlayer(players, playerName).Some? && FindByEmail(players, adminEmail).Some? ==>
      var ti := FindPlayer(players, playerName).value;
      var ai := FindByEmail(players, adminEmail).value;
      r[ti].mapIndex == r[ai].mapIndex && r[ti].location == r[ai].location
      && r[ai].mapIndex == players[ai].mapIndex && r[ai].location == players[ai].location
      && forall j :: 0 <= j < |r| && j != ti ==> r[j] == players[j]
  {
    match (FindPlayer(players, playerName), FindByEmail(players, adminEmail))
    case (Some(ti), Some(ai)) =>
      players[ti := players[ti].(mapIndex := players[ai].mapIndex, location := players[ai].location)]
    case _ => players
  }

  /** Recalling the same player to the same caller a second time changes nothing more. */
  lemma RecallIdempotent(players: seq<Player>, adminEmail: Option<String>, playerName: String)
    ensures Recalled(Recalled(players, adminEmail, playerName), adminEmail, playerName)
      == Recalled(players, adminEmail, playerName)
  {
    var once := Recalled(players, adminEmail, playerName);
    SameLookups(players, once, playerName, adminEmail);
    if FindPlayer(players, playerName).Some? && FindByEmail(players, adminEmail).Some? {
      var ti := FindPlayer(players, playerName).value;
      var twice := Recalled(once, adminEmail, playerName);
      assert twice[ti] == once[ti];
      assert twice == once;
    }
  }

  /**
   * `OnPostKick` (no role is required): the player must be online; a
   * connected player is asked to disconnect, and one without a connection
   * is left as it is.
   */
  method Kick(world: World, playerName: String) returns (r: Outcome<()>)
    modifies world`players
    ensures r.Fail? <==> FindPlayer(old(world.players), playerName).None?
    ensures r.Fail? ==> r.why == PlayerOffline && world.players == old(world.players)
    ensures r.Ok? ==>
      var ti := FindPlayer(old(world.players), playerName).value;
      var p := old(world.players)[ti];
      world.players == old(world.players)[ti := if p.connected then p.(disconnectRequested := true) else p]
  {
    var ti := FindPlayer(world.players, playerName);
    if ti.None? {
      return Fail(PlayerOffline);
    }
    var p := world.players[ti.value];
    if p.connected {
      world.players := world.players[ti.value := p.(disconnectRequested := true)];
    }
    return Ok(());
  }

  // ---------------------------------------------------------------------
  // Raising a level

  /**
   * The level check of `OnPostLevelUp` as written: the new level is the
   * 32-bit sum `currentLevel + levels`, so a large `levels` wraps below
   * `maxLevel` and passes the cap.
   */
  function RaiseLevelAsWritten(currentLevel: int, levels: int, maxLevel: int): (r: Outcome<int>)
    ensures r.Fail? <==> levels <= 0 || Wrap32(currentLevel + levels) > maxLevel
    ensures r.Ok? ==> r.value == Wrap32(currentLevel + levels) && r.value <= maxLevel
  {
    if levels <= 0 then Fail(NonPositiveLevels)
    else
      var newLevel := Wrap32(currentLevel + levels);
      if newLevel > maxLevel then Fail(AboveMaxLevel(maxLevel, currentLevel, newLevel))
      else Ok(newLevel)
  }

  /** A level 10 player raised by `int.MaxValue` levels passes the cap with a negative level. */
  lemma RaiseLevelAsWrittenWraps()
    ensures RaiseLevelAsWritten(10, Int32Max, 100) == Ok(-2147483639)
  {
    var x := 10 + Int32Max;
    var k :| Wrap32(x) == x + k * TwoTo32;
    assert k == -1;
  }

  /**
   * The level check as intended: the exact sum is compared with the cap,
   * so a successful raise always moves the level up and never past the cap.
   */
  function RaiseLevel(currentLevel: int, levels: int, maxLevel: int): (r: Outcome<int>)
    ensures r.Fail? <==> levels <= 0 || currentLevel + levels > maxLevel
    ensures levels <= 0 ==> r == Fail(NonPositiveLevels)
    ensures levels > 0 && currentLevel + levels > maxLevel ==>
      r == Fail(AboveMaxLevel(maxLevel, currentLevel, currentLevel + levels))
    ensures r.Ok? ==> currentLevel < r.value <= maxLevel && r.value == currentLevel + levels
  {
    if levels <= 0 then Fail(NonPositiveLevels)
    else if currentLevel + levels > maxLevel then Fail(AboveMaxLevel(maxLevel, currentLevel, currentLevel + levels))
    else Ok(currentLevel + levels)
  }

  /** Where the 32-bit sum does not overflow, the written check and the intended one agree. */
  lemma RaiseLevelAgrees(currentLevel: int, levels: int, maxLevel: int)
    requires IsInt32(currentLevel + levels)
    ensures RaiseLevelAsWritten(currentLevel, levels, maxLevel) == RaiseLevel(currentLevel, levels, maxLevel)
  {
  }

  /**
   * `OnPostLevelUp`: Admin only; the player must be online, `levels` must
   * be positive and the new level must not pass `maxLevel` (`Config.MaxLevel`).
   */
  method LevelUp(world: World, claim: Option<String>, playerName: String, levels: int, maxLevel: int)
    returns (r: Outcome<int>)
    modifies world`players
    ensures !HasPermission(claim, Admin) ==> r == Fail(Denied(Admin))
    ensures HasPermission(claim, Admin) && FindPlayer(old(world.players), playerName).None? ==> r == Fail(PlayerOffline)
    ensures r.Fail? ==> world.players == old(world.players)
    ensures (HasPermission(claim, Admin) && FindPlayer(old(world.players), playerName).Some?) ==>
      var ti := FindPlayer(old(world.players), playerName).value;
      var p := old(world.players)[ti];
      r == RaiseLevel(p.level, levels, maxLevel)
      && (r.Ok? ==> world.players == old(world.players)[ti := p.(level := r.value)])
  {
    if !HasPermission(claim, Admin) {
      return Fail(Denied(Admin));
    }
    var ti := FindPlayer(world.players, playerName);
    if ti.None? {
      return Fail(PlayerOffline);
    }
    var p := world.players[ti.value];
    r := RaiseLevel(p.level, levels, maxLevel);
    if r.Ok? {
      world.players := world.players[ti.value := p.(level := r.value)];
    }
  }
}
