/**
 * The skills page: the paged magic catalog with its keyword, class and
 * school filters, granting and revoking a learned skill, granting every
 * skill of a player's class, and editing a magic definition.
 *
 * A character's skills are held twice: the `Character.Magics` list and the
 * `player.Magics` dictionary from magic type to the same record. `Consistent`
 * says the two agree, and the grant and revoke operations keep it.
 */
module Skills {
  import opened Base
  import opened Text
  import opened Roles
  import opened Outcomes
  import opened Query
  import opened Records
  import opened Envir

  const PageSize: int := 50

  // ---------------------------------------------------------------------
  // Listing

  /**
   * The keyword filter: the name (ignoring case), the magic type's name
   * (ignoring case, `typeName` stands for `MagicType.ToString()`) or the
   * decimal index must contain a non-blank keyword.
   */
  function KeywordMatches(keyword: String, typeName: int -> String): MagicInfo -> bool {
    (m: MagicInfo) => KeywordMatch(m.edit.name, m.index, keyword) || ContainsIgnoreCase(typeName(m.magic), keyword)
  }

  /** The keyword filter, then the class and school filters that are in force. */
  function Matches(keyword: String, typeName: int -> String, classFilter: Option<int>, schoolFilter: Option<int>): MagicInfo -> bool {
    (m: MagicInfo) => KeywordMatches(keyword, typeName)(m)
      && (classFilter.None? || m.mirClass == classFilter.value)
      && (schoolFilter.None? || m.school == schoolFilter.value)
  }

  function MagicKey(m: MagicInfo): seq<int> {
    [m.mirClass, m.school, m.edit.needLevel1]
  }

  /**
   * `LoadMagics`: `TotalCount` counts the matching definitions and the
   * page holds the `page`-th run of fifty of them, by class, then school,
   * then first required level.
   */
  function LoadMagics(infos: seq<MagicInfo>, keyword: String, typeName: int -> String,
                      classText: String, parseClass: String -> Option<int>,
                      schoolText: String, parseSchool: String -> Option<int>, page: int)
    : (r: PageResult<MagicInfo>)
    ensures var p := Matches(keyword, typeName, EnumFilter(classText, parseClass), EnumFilter(schoolText, parseSchool));
      r.totalCount == |Filter(infos, p)|
      && r.items == Paginate(SortBy(Filter(infos, p), MagicKey), page, PageSize)
      && |r.items| == Max(0, Min(PageSize, r.totalCount - PageOffset(page, PageSize)))
      && forall i :: 0 <= i < |r.items| ==> r.items[i] in infos && p(r.items[i])
    ensures SortedBy(r.items, MagicKey)
    ensures forall i, j :: 0 <= i < j < |r.items| ==> r.items[i].mirClass <= r.items[j].mirClass
  {
    var r := RunQuery(infos, Matches(keyword, typeName, EnumFilter(classText, parseClass), EnumFilter(schoolText, parseSchool)),
                      MagicKey, page, PageSize);
    ClassOrder(r.items);
    r
  }

  /** A run sorted by class, school and level is sorted by class. */
  lemma ClassOrder(items: seq<MagicInfo>)
    requires SortedBy(items, MagicKey)
    ensures forall i, j :: 0 <= i < j < |items| ==> items[i].mirClass <= items[j].mirClass
  {
    forall i, j | 0 <= i < j < |items| ensures items[i].mirClass <= items[j].mirClass {
      var a, b := MagicKey(items[i]), MagicKey(items[j]);
      assert LexLe(a, b);
      assert a[0] == items[i].mirClass && b[0] == items[j].mirClass;
    }
  }

  /** The keyword filter ignores letter case. */
  lemma LoadMagicsIgnoresCase(infos: seq<MagicInfo>, k1: String, k2: String, typeName: int -> String,
                              classText: String, parseClass: String -> Option<int>,
                              schoolText: String, parseSchool: String -> Option<int>, page: int)
    requires EqualsIgnoreCase(k1, k2)
    ensures LoadMagics(infos, k1, typeName, classText, parseClass, schoolText, parseSchool, page)
         == LoadMagics(infos, k2, typeName, classText, parseClass, schoolText, parseSchool, page)
  {
    var c := EnumFilter(classText, parseClass);
    var s := EnumFilter(schoolText, parseSchool);
    forall i | 0 <= i < |infos| ensures Matches(k1, typeName, c, s)(infos[i]) == Matches(k2, typeName, c, s)(infos[i]) {
      KeywordMatchIgnoresCase(infos[i].edit.name, infos[i].index, k1, k2);
      KeywordCaseInvariant(k1, k2, typeName(infos[i].magic), "");
      assert KeywordMatches(k1, typeName)(infos[i]) == KeywordMatches(k2, typeName)(infos[i]);
    }
    FilterSame(infos, Matches(k1, typeName, c, s), Matches(k2, typeName, c, s));
  }

  // ---------------------------------------------------------------------
  // The skill book

  /** `Character.Magics.FirstOrDefault(m => m.Info.Index == magicIndex)`. */
  function FindSkill(list: seq<UserMagic>, magicIndex: int): (r: Option<nat>)
    ensures r.Some? ==> r.value < |list| && list[r.value].infoIndex == magicIndex
    ensures r.Some? ==> forall j :: 0 <= j < r.value ==> list[j].infoIndex != magicIndex
    ensures r.None? <==> forall j :: 0 <= j < |list| ==> list[j].infoIndex != magicIndex
  {
    FirstIndex(list, (m: UserMagic) => m.infoIndex == magicIndex)
  }

  predicate Learned(b: SkillBook, magicIndex: int) {
    FindSkill(b.list, magicIndex).Some?
  }

  /** The learned record of `magicIndex` is at level `level` with no experience. */
  predicate Holds(b: SkillBook, magicIndex: int, level: int) {
    FindSkill(b.list, magicIndex).Some?
    && b.list[FindSkill(b.list, magicIndex).value].level == level
    && b.list[FindSkill(b.list, magicIndex).value].experience == 0
  }

  /** Every listed record is filed under its own magic type. */
  predicate ListFiled(b: SkillBook) {
    forall i :: 0 <= i < |b.list| ==> b.list[i].magic in b.byType && b.byType[b.list[i].magic] == b.list[i]
  }

  /** Every filed record is listed, and filed under its own type. */
  predicate FiledListed(b: SkillBook) {
    forall t :: t in b.byType ==> b.byType[t].magic == t && b.byType[t] in b.list
  }

  /** No magic is listed twice. */
  predicate ListedOnce(b: SkillBook) {
    forall i, j :: 0 <= i < j < |b.list| ==> b.list[i].infoIndex != b.list[j].infoIndex
  }

  /** The list and the dictionary agree. */
  predicate Consistent(b: SkillBook) {
    ListFiled(b) && FiledListed(b) && ListedOnce(b)
  }

  /** The catalog entry `info` names the same magic type as every record of it, and no other record. */
  predicate AgreesWith(b: SkillBook, info: MagicInfo) {
    forall i :: 0 <= i < |b.list| ==> (b.list[i].infoIndex == info.index <==> b.list[i].magic == info.magic)
  }

  /** A longer list whose first records carry the same indices finds a learned index at the same place. */
  lemma FindSkillExtended(b: seq<UserMagic>, r: seq<UserMagic>, magicIndex: int)
    requires |b| <= |r| && forall j :: 0 <= j < |b| ==> r[j].infoIndex == b[j].infoIndex
    requires FindSkill(b, magicIndex).Some?
    ensures FindSkill(r, magicIndex) == FindSkill(b, magicIndex)
  {
    var p := FindSkill(b, magicIndex).value;
    assert r[p].infoIndex == magicIndex;
    var q := FindSkill(r, magicIndex);
    assert q.Some?;
  }

  /**
   * Grant `info` at `level`, capped to `0..maxLevel`, with no experience:
   * a learned record is updated in place (and so is the dictionary's,
   * which is the same record); otherwise a new record is appended to the
   * list and filed under its magic type.
   */
  function Grant(b: SkillBook, info: MagicInfo, level: int, maxLevel: int): (r: SkillBook)
    ensures Holds(r, info.index, Clamp(level, 0, maxLevel))
    ensures |r.list| == |b.list| + (if Learned(b, info.index) then 0 else 1)
    ensures forall j :: 0 <= j < |b.list| ==> r.list[j].infoIndex == b.list[j].infoIndex && r.list[j].magic == b.list[j].magic
    ensures forall j :: 0 <= j < |b.list| && b.list[j].infoIndex != info.index ==> r.list[j] == b.list[j]
    ensures !Learned(b, info.index) ==>
      r.list[|b.list|] == UserMagic(info.index, info.magic, Clamp(level, 0, maxLevel), 0)
      && r.byType == b.byType[info.magic := r.list[|b.list|]]
    ensures r.byType.Keys == b.byType.Keys + (if Learned(b, info.index) then {} else {info.magic})
  {
    var lvl := Clamp(level, 0, maxLevel);
    match FindSkill(b.list, info.index)
    case Some(i) =>
      var u := b.list[i].(level := lvl, experience := 0);
      var r := SkillBook(b.list[i := u],
        if b.list[i].magic in b.byType && b.byType[b.list[i].magic] == b.list[i] then b.byType[b.list[i].magic := u] else b.byType);
      FindSkillExtended(b.list, r.list, info.index);
      r
    case None =>
      var u := UserMagic(info.index, info.magic, lvl, 0);
      var r := SkillBook(b.list + [u], b.byType[info.magic := u]);
      assert r.list[|b.list|].infoIndex == info.index;
      assert forall j :: 0 <= j < |b.list| ==> r.list[j] == b.list[j];
      r
  }

  /** Granting one skill leaves what another skill holds as it was. */
  lemma GrantKeepsOthers(b: SkillBook, info: MagicInfo, level: int, maxLevel: int, magicIndex: int, held: int)
    requires Holds(b, magicIndex, held)
    requires magicIndex != info.index || held == Clamp(level, 0, maxLevel)
    ensures Holds(Grant(b, info, level, maxLevel), magicIndex, held)
  {
    if magicIndex != info.index {
      var r := Grant(b, info, level, maxLevel);
      FindSkillExtended(b.list, r.list, magicIndex);
    }
  }

  /** Re-granting a learned skill keeps the list and dictionary consistent. */
  lemma GrantUpdateConsistent(b: SkillBook, info: MagicInfo, level: int, maxLevel: int)
    requires Consistent(b) && AgreesWith(b, info) && Learned(b, info.index)
    ensures Consistent(Grant(b, info, level, maxLevel))
  {
    var r := Grant(b, info, level, maxLevel);
    var i := FindSkill(b.list, info.index).value;
    var u := r.list[i];
    assert b.list[i].magic == info.magic;
    assert r.list == b.list[i := u];
    assert r.byType == b.byType[info.magic := u];
    forall t | t in r.byType ensures r.byType[t].magic == t && r.byType[t] in r.list {
      if t != info.magic {
        var j :| 0 <= j < |b.list| && b.list[j] == b.byType[t];
        assert r.list[j] == b.list[j];
      }
    }
  }

  /** Appending and filing a record of a skill and a type the book does not list keeps it consistent. */
  lemma AddConsistent(b: SkillBook, u: UserMagic)
    requires Consistent(b)
    requires forall i :: 0 <= i < |b.list| ==> b.list[i].infoIndex != u.infoIndex && b.list[i].magic != u.magic
    ensures Consistent(SkillBook(b.list + [u], b.byType[u.magic := u]))
  {
    var r := SkillBook(b.list + [u], b.byType[u.magic := u]);
    assert u.magic !in b.byType;
    assert ListFiled(r) by {
      forall i | 0 <= i < |r.list| ensures r.list[i].magic in r.byType && r.byType[r.list[i].magic] == r.list[i] {
        if i < |b.list| {
          assert r.list[i] == b.list[i];
        }
      }
    }
    assert FiledListed(r) by {
      forall t | t in r.byType ensures r.byType[t].magic == t && r.byType[t] in r.list {
        if t != u.magic {
          var j :| 0 <= j < |b.list| && b.list[j] == b.byType[t];
          assert r.list[j] == b.list[j];
        } else {
          assert r.list[|b.list|] == u;
        }
      }
    }
    assert ListedOnce(r) by {
      forall i, j | 0 <= i < j < |r.list| ensures r.list[i].infoIndex != r.list[j].infoIndex {
        assert r.list[i] == b.list[i];
        if j < |b.list| {
          assert r.list[j] == b.list[j];
        }
      }
    }
  }

  /** Granting a new skill whose catalog entry agrees with the book keeps it consistent. */
  lemma GrantAddConsistent(b: SkillBook, info: MagicInfo, level: int, maxLevel: int)
    requires Consistent(b) && AgreesWith(b, info) && !Learned(b, info.index)
    ensures Consistent(Grant(b, info, level, maxLevel))
  {
    var u := UserMagic(info.index, info.magic, Clamp(level, 0, maxLevel), 0);
    var r := Grant(b, info, level, maxLevel);
    assert r.list == b.list + [u];
    AddConsistent(b, u);
  }

  /** Granting a skill whose catalog entry agrees with the book keeps the list and dictionary consistent. */
  lemma GrantConsistent(b: SkillBook, info: MagicInfo, level: int, maxLevel: int)
    requires Consistent(b) && AgreesWith(b, info)
    ensures Consistent(Grant(b, info, level, maxLevel))
  {
    if Learned(b, info.index) {
      GrantUpdateConsistent(b, info, level, maxLevel);
    } else {
      GrantAddConsistent(b, info, level, maxLevel);
    }
  }

  /**
   * Forget the record at position `i`: the dictionary drops its magic
   * type and the list drops the record.
   */
  function Revoke(b: SkillBook, i: nat): (r: SkillBook)
    requires i < |b.list|
    ensures |r.list| == |b.list| - 1
    ensures multiset(r.list) + multiset{b.list[i]} == multiset(b.list)
    ensures b.list[i].magic !in r.byType
    ensures forall t :: t in r.byType <==> t in b.byType && t != b.list[i].magic
    ensures forall t :: t in r.byType ==> r.byType[t] == b.byType[t]
  {
    assert b.list == b.list[..i] + [b.list[i]] + b.list[i + 1..];
    SkillBook(b.list[..i] + b.list[i + 1..], b.byType - {b.list[i].magic})
  }

  /** After a revoke, the records past `i` move up one place. */
  lemma RevokeShift(b: SkillBook, i: nat, k: nat)
    requires i < |b.list| && k < |b.list| - 1
    ensures Revoke(b, i).list[k] == b.list[if k < i then k else k + 1]
  {
  }

  lemma RevokeListFiled(b: SkillBook, i: nat)
    requires ListFiled(b) && ListedOnce(b) && i < |b.list|
    ensures ListFiled(Revoke(b, i))
  {
    var r := Revoke(b, i);
    forall k | 0 <= k < |r.list| ensures r.list[k].magic in r.byType && r.byType[r.list[k].magic] == r.list[k] {
      RevokeShift(b, i, k);
      var j := if k < i then k else k + 1;
      assert b.byType[b.list[j].magic] == b.list[j];
    }
  }

  lemma RevokeFiledListed(b: SkillBook, i: nat)
    requires FiledListed(b) && ListFiled(b) && i < |b.list|
    ensures FiledListed(Revoke(b, i))
  {
    var r := Revoke(b, i);
    forall t | t in r.byType ensures r.byType[t].magic == t && r.byType[t] in r.list {
      var j :| 0 <= j < |b.list| && b.list[j] == b.byType[t];
      assert j != i;
      RevokeShift(b, i, if j < i then j else j - 1);
    }
  }

  lemma RevokeListedOnce(b: SkillBook, i: nat)
    requires ListedOnce(b) && i < |b.list|
    ensures ListedOnce(Revoke(b, i))
    ensures !Learned(Revoke(b, i), b.list[i].infoIndex)
  {
    var r := Revoke(b, i);
    forall k, m | 0 <= k < m < |r.list| ensures r.list[k].infoIndex != r.list[m].infoIndex {
      RevokeShift(b, i, k);
      RevokeShift(b, i, m);
    }
    forall k | 0 <= k < |r.list| ensures r.list[k].infoIndex != b.list[i].infoIndex {
      RevokeShift(b, i, k);
    }
  }

  /** Revoking from a consistent book leaves it consistent and the skill no longer learned. */
  lemma RevokeConsistent(b: SkillBook, i: nat)
    requires Consistent(b) && i < |b.list|
    ensures Consistent(Revoke(b, i))
    ensures !Learned(Revoke(b, i), b.list[i].infoIndex)
  {
    RevokeListFiled(b, i);
    RevokeFiledListed(b, i);
    RevokeListedOnce(b, i);
  }

  /** Granting a skill the book does not know and then revoking it restores the book. */
  lemma GrantThenRevoke(b: SkillBook, info: MagicInfo, level: int, maxLevel: int)
    requires !Learned(b, info.index) && info.magic !in b.byType
    ensures Revoke(Grant(b, info, level, maxLevel), |b.list|) == b
  {
    var r := Grant(b, info, level, maxLevel);
    assert r.list[..|b.list|] == b.list;
    assert r.byType - {info.magic} == b.byType;
  }

  /** A grant teaches exactly the granted skill: nothing else becomes learned or forgotten. */
  lemma GrantLearned(b: SkillBook, info: MagicInfo, level: int, maxLevel: int, magicIndex: int)
    ensures Learned(Grant(b, info, level, maxLevel), magicIndex) <==> Learned(b, magicIndex) || magicIndex == info.index
  {
    var r := Grant(b, info, level, maxLevel);
    if magicIndex != info.index {
      if Learned(b, magicIndex) {
        FindSkillExtended(b.list, r.list, magicIndex);
      }
    }
  }

  /** The book after granting `skills` one after the other: what the loop of `GrantAll` computes. */
  function GrantEach(b: SkillBook, skills: seq<MagicInfo>, level: int, maxLevel: int): SkillBook
    decreases |skills|
  {
    if skills == [] then b
    else Grant(GrantEach(b, skills[..|skills| - 1], level, maxLevel), skills[|skills| - 1], level, maxLevel)
  }

  /** How many of `skills` were already learned when their turn to be granted came. */
  function UpdatedAlong(b: SkillBook, skills: seq<MagicInfo>, level: int, maxLevel: int): (r: nat)
    ensures r <= |skills|
    decreases |skills|
  {
    if skills == [] then 0
    else
      UpdatedAlong(b, skills[..|skills| - 1], level, maxLevel)
      + (if Learned(GrantEach(b, skills[..|skills| - 1], level, maxLevel), skills[|skills| - 1].index) then 1 else 0)
  }

  /** How many of `skills` the book `b` has learned. */
  function CountLearned(b: SkillBook, skills: seq<MagicInfo>): (r: nat)
    ensures r <= |skills|
    decreases |skills|
  {
    if skills == [] then 0
    else CountLearned(b, skills[..|skills| - 1]) + (if Learned(b, skills[|skills| - 1].index) then 1 else 0)
  }

  /** The magic indices of `skills`. */
  function Indices(skills: seq<MagicInfo>): (r: set<int>)
    ensures forall k :: 0 <= k < |skills| ==> skills[k].index in r
    ensures forall x :: x in r ==> exists k :: 0 <= k < |skills| && skills[k].index == x
    decreases |skills|
  {
    if skills == [] then {}
    else
      var r := Indices(skills[..|skills| - 1]) + {skills[|skills| - 1].index};
      assert forall k :: 0 <= k < |skills| - 1 ==> skills[..|skills| - 1][k] == skills[k];
      r
  }

  /** After the grants a skill is learned exactly when it was before or was one of those granted. */
  lemma {:induction false} GrantEachLearned(b: SkillBook, skills: seq<MagicInfo>, level: int, maxLevel: int, magicIndex: int)
    ensures Learned(GrantEach(b, skills, level, maxLevel), magicIndex) <==> Learned(b, magicIndex) || magicIndex in Indices(skills)
    decreases |skills|
  {
    if skills != [] {
      var init := skills[..|skills| - 1];
      var last := skills[|skills| - 1];
      GrantEachLearned(b, init, level, maxLevel, magicIndex);
      GrantLearned(GrantEach(b, init, level, maxLevel), last, level, maxLevel, magicIndex);
    }
  }

  /**
   * When no skill is granted twice, the updates are exactly the skills the
   * book had already learned.
   */
  lemma {:induction false} UpdatedCountsLearned(b: SkillBook, skills: seq<MagicInfo>, level: int, maxLevel: int)
    requires forall i, j :: 0 <= i < j < |skills| ==> skills[i].index != skills[j].index
    ensures UpdatedAlong(b, skills, level, maxLevel) == CountLearned(b, skills)
    decreases |skills|
  {
    if skills != [] {
      var init := skills[..|skills| - 1];
      var last := skills[|skills| - 1];
      UpdatedCountsLearned(b, init, level, maxLevel);
      GrantEachLearned(b, init, level, maxLevel, last.index);
    }
  }

  /** The magic index and type of every skill in `skills`. */
  function Kinds(skills: seq<MagicInfo>): set<(int, int)> {
    set m | m in skills :: (m.index, m.magic)
  }

  /**
   * The shape of the book after the grants: every existing record keeps its
   * place and its skill, and those of skills not granted are untouched; one
   * record is appended per grant of a skill not yet learned, for a granted
   * skill at the capped level with no experience; the dictionary keeps its
   * types and gains only granted ones.
   */
  lemma GrantEachShape(b: SkillBook, skills: seq<MagicInfo>, level: int, maxLevel: int)
    ensures var r := GrantEach(b, skills, level, maxLevel);
      |r.list| == |b.list| + |skills| - UpdatedAlong(b, skills, level, maxLevel)
      && (forall j :: 0 <= j < |b.list| ==> r.list[j].infoIndex == b.list[j].infoIndex && r.list[j].magic == b.list[j].magic)
      && (forall j :: 0 <= j < |b.list| && (forall k :: 0 <= k < |skills| ==> b.list[j].infoIndex != skills[k].index) ==>
            r.list[j] == b.list[j])
      && AppendedFrom(r, |b.list|, Kinds(skills), Clamp(level, 0, maxLevel))
      && b.byType.Keys <= r.byType.Keys <= b.byType.Keys + set m | m in skills :: m.magic
  {
    GrantEachPrefix(b, skills, level, maxLevel);
    GrantEachUntouched(b, skills, level, maxLevel);
    GrantEachAppended(b, skills, level, maxLevel);
    GrantEachKeys(b, skills, level, maxLevel);
  }

  /** One record is appended per grant of a skill not yet learned; existing records keep their skill. */
  lemma {:induction false} GrantEachPrefix(b: SkillBook, skills: seq<MagicInfo>, level: int, maxLevel: int)
    ensures var r := GrantEach(b, skills, level, maxLevel);
      |r.list| == |b.list| + |skills| - UpdatedAlong(b, skills, level, maxLevel)
      && forall j :: 0 <= j < |b.list| ==> r.list[j].infoIndex == b.list[j].infoIndex && r.list[j].magic == b.list[j].magic
    decreases |skills|
  {
    if skills != [] {
      GrantEachPrefix(b, skills[..|skills| - 1], level, maxLevel);
    }
  }

  /** The records of skills that are not granted are untouched. */
  lemma {:induction false} GrantEachUntouched(b: SkillBook, skills: seq<MagicInfo>, level: int, maxLevel: int)
    ensures var r := GrantEach(b, skills, level, maxLevel);
      |b.list| <= |r.list|
      && forall j :: 0 <= j < |b.list| && (forall k :: 0 <= k < |skills| ==> b.list[j].infoIndex != skills[k].index) ==>
        r.list[j] == b.list[j]
    decreases |skills|
  {
    if skills != [] {
      var init := skills[..|skills| - 1];
      GrantEachUntouched(b, init, level, maxLevel);
      GrantEachPrefix(b, init, level, maxLevel);
      GrantEachPrefix(b, skills, level, maxLevel);
      var r := GrantEach(b, skills, level, maxLevel);
      forall j | 0 <= j < |b.list| && (forall k :: 0 <= k < |skills| ==> b.list[j].infoIndex != skills[k].index)
        ensures r.list[j] == b.list[j]
      {
        forall k | 0 <= k < |init| ensures b.list[j].infoIndex != init[k].index {
          assert init[k] == skills[k];
        }
      }
    }
  }

  /** Every record of `r` past the first `n` is of a skill of `kinds` at level `level` with no experience. */
  predicate AppendedFrom(r: SkillBook, n: nat, kinds: set<(int, int)>, level: int) {
    forall j :: n <= j < |r.list| ==>
      (r.list[j].infoIndex, r.list[j].magic) in kinds && r.list[j].level == level && r.list[j].experience == 0
  }

  /** Every appended record is of a granted skill, at the capped level with no experience. */
  lemma {:induction false} GrantEachAppended(b: SkillBook, skills: seq<MagicInfo>, level: int, maxLevel: int)
    ensures AppendedFrom(GrantEach(b, skills, level, maxLevel), |b.list|, Kinds(skills), Clamp(level, 0, maxLevel))
    decreases |skills|
  {
    if skills != [] {
      var init := skills[..|skills| - 1];
      var last := skills[|skills| - 1];
      var lvl := Clamp(level, 0, maxLevel);
      GrantEachAppended(b, init, level, maxLevel);
      var before := GrantEach(b, init, level, maxLevel);
      var r := GrantEach(b, skills, level, maxLevel);
      assert r == Grant(before, last, level, maxLevel);
      assert Kinds(init) <= Kinds(skills) by {
        forall m | m in init ensures m in skills {
          var k :| 0 <= k < |init| && init[k] == m;
          assert skills[k] == m;
        }
      }
      assert last in skills;
      forall j | |b.list| <= j < |r.list|
        ensures (r.list[j].infoIndex, r.list[j].magic) in Kinds(skills) && r.list[j].level == lvl && r.list[j].experience == 0
      {
        if j < |before.list| {
          assert AppendedFrom(before, |b.list|, Kinds(init), lvl);
          assert (before.list[j].infoIndex, before.list[j].magic) in Kinds(init);
          if before.list[j].infoIndex != last.index {
            assert r.list[j] == before.list[j];
          } else {
            GrantHolds(before, last, level, maxLevel, j);
          }
        } else {
          assert r.list[j] == UserMagic(last.index, last.magic, lvl, 0);
          assert (last.index, last.magic) in Kinds(skills);
        }
      }
    }
  }

  /** The dictionary keeps its types and gains only granted ones. */
  lemma {:induction false} GrantEachKeys(b: SkillBook, skills: seq<MagicInfo>, level: int, maxLevel: int)
    ensures var r := GrantEach(b, skills, level, maxLevel);
      b.byType.Keys <= r.byType.Keys <= b.byType.Keys + set m | m in skills :: m.magic
    decreases |skills|
  {
    if skills != [] {
      var init := skills[..|skills| - 1];
      GrantEachKeys(b, init, level, maxLevel);
      assert forall m :: m in init ==> m in skills;
      assert skills[|skills| - 1] in skills;
    }
  }

  /**
   * The grant sets the first record of the granted skill to the capped
   * level with no experience, and leaves any later record of it as it was.
   */
  lemma GrantHolds(b: SkillBook, info: MagicInfo, level: int, maxLevel: int, j: nat)
    requires j < |b.list| && b.list[j].infoIndex == info.index
    ensures var r := Grant(b, info, level, maxLevel);
      r.list[j].infoIndex == info.index && r.list[j].magic == b.list[j].magic
      && (FindSkill(b.list, info.index).value == j ==> r.list[j].level == Clamp(level, 0, maxLevel) && r.list[j].experience == 0)
      && (FindSkill(b.list, info.index).value != j ==> r.list[j] == b.list[j])
  {
    var r := Grant(b, info, level, maxLevel);
    FindSkillExtended(b.list, r.list, info.index);
  }

  /** After the grants every granted skill is held at the capped level with no experience. */
  lemma {:induction false} GrantEachHolds(b: SkillBook, skills: seq<MagicInfo>, level: int, maxLevel: int, k: nat)
    requires k < |skills|
    ensures Holds(GrantEach(b, skills, level, maxLevel), skills[k].index, Clamp(level, 0, maxLevel))
    decreases |skills|
  {
    var init, last := skills[..|skills| - 1], skills[|skills| - 1];
    var prev := GrantEach(b, init, level, maxLevel);
    assert GrantEach(b, skills, level, maxLevel) == Grant(prev, last, level, maxLevel);
    if k < |init| {
      assert init[k] == skills[k];
      GrantEachHolds(b, init, level, maxLevel, k);
      GrantKeepsOthers(prev, last, level, maxLevel, skills[k].index, Clamp(level, 0, maxLevel));
    }
  }

  /** Within `skills`, two entries share a magic index exactly when they share a magic type. */
  predicate KindsAgree(skills: seq<MagicInfo>) {
    forall i, j :: 0 <= i < |skills| && 0 <= j < |skills| ==>
      (skills[i].index == skills[j].index <==> skills[i].magic == skills[j].magic)
  }

  /**
   * Granting skills whose catalog entries agree with the book and with each
   * other keeps the list and the dictionary consistent.
   */
  lemma {:induction false} GrantEachConsistent(b: SkillBook, skills: seq<MagicInfo>, level: int, maxLevel: int)
    requires Consistent(b) && KindsAgree(skills)
    requires forall k :: 0 <= k < |skills| ==> AgreesWith(b, skills[k])
    ensures Consistent(GrantEach(b, skills, level, maxLevel))
    decreases |skills|
  {
    if skills != [] {
      var init := skills[..|skills| - 1];
      var last := skills[|skills| - 1];
      assert forall k :: 0 <= k < |init| ==> init[k] == skills[k];
      GrantEachConsistent(b, init, level, maxLevel);
      GrantEachAgrees(b, init, level, maxLevel, last);
      GrantConsistent(GrantEach(b, init, level, maxLevel), last, level, maxLevel);
    }
  }

  /**
   * A catalog entry that agrees with the book, and with every granted
   * entry, agrees with the book after the grants.
   */
  lemma GrantEachAgrees(b: SkillBook, skills: seq<MagicInfo>, level: int, maxLevel: int, info: MagicInfo)
    requires AgreesWith(b, info)
    requires forall k :: 0 <= k < |skills| ==> (skills[k].index == info.index <==> skills[k].magic == info.magic)
    ensures AgreesWith(GrantEach(b, skills, level, maxLevel), info)
  {
    GrantEachShape(b, skills, level, maxLevel);
    var r := GrantEach(b, skills, level, maxLevel);
    forall i | 0 <= i < |r.list| ensures r.list[i].infoIndex == info.index <==> r.list[i].magic == info.magic {
      if i >= |b.list| {
        var m :| m in skills && (m.index, m.magic) == (r.list[i].infoIndex, r.list[i].magic);
        var k :| 0 <= k < |skills| && skills[k] == m;
      }
    }
  }

  /**
   * `after` is `before` with every skill of `skills` granted in turn at the
   * capped level: `added` of them were new and `updated` already learned
   * when their turn came (exactly those the book held, when no skill is
   * listed twice); every one is held afterwards, records of other skills
   * are untouched, and consistency is kept when the catalog entries agree
   * with the book and with each other.
   */
  ghost predicate GaveAll(before: SkillBook, after: SkillBook, skills: seq<MagicInfo>, level: int, maxLevel: int,
                          added: nat, updated: nat)
  {
    after == GrantEach(before, skills, level, maxLevel)
    && updated == UpdatedAlong(before, skills, level, maxLevel)
    && added + updated == |skills|
    && |after.list| == |before.list| + added
    && (forall k :: 0 <= k < |skills| ==> Holds(after, skills[k].index, Clamp(level, 0, maxLevel)))
    && (forall j :: 0 <= j < |before.list| ==> after.list[j].infoIndex == before.list[j].infoIndex)
    && (forall j :: 0 <= j < |before.list| && (forall k :: 0 <= k < |skills| ==> before.list[j].infoIndex != skills[k].index) ==>
          after.list[j] == before.list[j])
    && ((forall i, j :: 0 <= i < j < |skills| ==> skills[i].index != skills[j].index) ==>
          updated == CountLearned(before, skills))
    && (Consistent(before) && KindsAgree(skills) && (forall k :: 0 <= k < |skills| ==> AgreesWith(before, skills[k])) ==>
          Consistent(after))
  }

  /**
   * The `foreach` of `OnPostGiveAllSkills`: every skill of the player's
   * class is granted at the capped level, in catalog order, counting the
   * records added and those updated.
   */
  method GrantAll(b: SkillBook, classSkills: seq<MagicInfo>, level: int, maxLevel: int)
    returns (r: SkillBook, added: nat, updated: nat)
    ensures GaveAll(b, r, classSkills, level, maxLevel, added, updated)
  {
    r := b;
    added := 0;
    updated := 0;
    var i := 0;
    while i < |classSkills|
      invariant 0 <= i <= |classSkills| && added + updated == i
      invariant r == GrantEach(b, classSkills[..i], level, maxLevel)
      invariant updated == UpdatedAlong(b, classSkills[..i], level, maxLevel)
    {
      assert classSkills[..i + 1][..i] == classSkills[..i];
      var info := classSkills[i];
      if Learned(r, info.index) {
        updated := updated + 1;
      } else {
        added := added + 1;
      }
      r := Grant(r, info, level, maxLevel);
      i := i + 1;
    }
    assert classSkills[..i] == classSkills;
    GrantEachGaveAll(b, classSkills, level, maxLevel);
  }

  /** Granting `skills` in turn does what `GaveAll` says. */
  lemma GrantEachGaveAll(b: SkillBook, skills: seq<MagicInfo>, level: int, maxLevel: int)
    ensures var updated := UpdatedAlong(b, skills, level, maxLevel);
      GaveAll(b, GrantEach(b, skills, level, maxLevel), skills, level, maxLevel, |skills| - updated, updated)
  {
    var r := GrantEach(b, skills, level, maxLevel);
    GrantEachShape(b, skills, level, maxLevel);
    forall k | 0 <= k < |skills| ensures Holds(r, skills[k].index, Clamp(level, 0, maxLevel)) {
      GrantEachHolds(b, skills, level, maxLevel, k);
    }
    if forall i, j :: 0 <= i < j < |skills| ==> skills[i].index != skills[j].index {
      UpdatedCountsLearned(b, skills, level, maxLevel);
    }
    if Consistent(b) && KindsAgree(skills) && forall k :: 0 <= k < |skills| ==> AgreesWith(b, skills[k]) {
      GrantEachConsistent(b, skills, level, maxLevel);
    }
  }

  // ---------------------------------------------------------------------
  // Commands

  datatype Granted = Added(level: int) | Updated(level: int)

  /**
   * `OnPostGiveSkill`: Admin only; the player must be online and the magic
   * must exist. The player's record of it is created or updated at the
   * capped level with no experience.
   */
  method GiveSkill(world: World, claim: Option<String>, playerName: String, magicIndex: int, level: int, maxLevel: int)
    returns (r: Outcome<Granted>)
    modifies world`players
    ensures !HasPermission(claim, Admin) ==> r == Fail(Denied(Admin))
    ensures HasPermission(claim, Admin) && FindPlayer(old(world.players), playerName).None? ==> r == Fail(PlayerOffline)
    ensures (HasPermission(claim, Admin) && FindPlayer(old(world.players), playerName).Some?
      && FindMagicInfo(world.magicInfos, magicIndex).None?) ==> r == Fail(NotFound(magicIndex))
    ensures (HasPermission(claim, Admin) && FindPlayer(old(world.players), playerName).Some?
      && FindMagicInfo(world.magicInfos, magicIndex).Some?) ==> r.Ok?
    ensures r.Fail? ==> world.players == old(world.players)
    ensures r.Ok? ==>
      FindPlayer(old(world.players), playerName).Some? && FindMagicInfo(world.magicInfos, magicIndex).Some?
      && var pi := FindPlayer(old(world.players), playerName).value;
      var p := old(world.players)[pi];
      var info := world.magicInfos[FindMagicInfo(world.magicInfos, magicIndex).value];
      world.players == old(world.players)[pi := p.(skills := Grant(p.skills, info, level, maxLevel))]
      && r.value.level == Clamp(level, 0, maxLevel)
      && (r.value.Updated? <==> Learned(p.skills, magicIndex))
  {
    if !HasPermission(claim, Admin) {
      return Fail(Denied(Admin));
    }
    var pi := FindPlayer(world.players, playerName);
    if pi.None? {
      return Fail(PlayerOffline);
    }
    var mi := FindMagicInfo(world.magicInfos, magicIndex);
    if mi.None? {
      return Fail(NotFound(magicIndex));
    }
    var p := world.players[pi.value];
    var info := world.magicInfos[mi.value];
    var lvl := Clamp(level, 0, maxLevel);
    r := if Learned(p.skills, magicIndex) then Ok(Updated(lvl)) else Ok(Added(lvl));
    world.players := world.players[pi.value := p.(skills := Grant(p.skills, info, level, maxLevel))];
  }

  /**
   * `OnPostRemoveSkill`: Admin only; the player must be online and must
   * have learned the magic. The record leaves both the list and the
   * dictionary.
   */
  method RemoveSkill(world: World, claim: Option<String>, playerName: String, magicIndex: int) returns (r: Outcome<()>)
    modifies world`players
    ensures !HasPermission(claim, Admin) ==> r == Fail(Denied(Admin))
    ensures HasPermission(claim, Admin) && FindPlayer(old(world.players), playerName).None? ==> r == Fail(PlayerOffline)
    ensures (HasPermission(claim, Admin) && FindPlayer(old(world.players), playerName).Some?
      && !Learned(old(world.players)[FindPlayer(old(world.players), playerName).value].skills, magicIndex)) ==>
      r == Fail(NotLearned(magicIndex))
    ensures (HasPermission(claim, Admin) && FindPlayer(old(world.players), playerName).Some?
      && Learned(old(world.players)[FindPlayer(old(world.players), playerName).value].skills, magicIndex)) ==>
      r.Ok?
    ensures r.Fail? ==> world.players == old(world.players)
    ensures r.Ok? ==>
      FindPlayer(old(world.players), playerName).Some?
      && var pi := FindPlayer(old(world.players), playerName).value;
      var p := old(world.players)[pi];
      Learned(p.skills, magicIndex)
      && world.players == old(world.players)[pi := p.(skills := Revoke(p.skills, FindSkill(p.skills.list, magicIndex).value))]
  {
    if !HasPermission(claim, Admin) {
      return Fail(Denied(Admin));
    }
    var pi := FindPlayer(world.players, playerName);
    if pi.None? {
      return Fail(PlayerOffline);
    }
    var p := world.players[pi.value];
    var si := FindSkill(p.skills.list, magicIndex);
    if si.None? {
      return Fail(NotLearned(magicIndex));
    }
    world.players := world.players[pi.value := p.(skills := Revoke(p.skills, si.value))];
    return Ok(());
  }

  /** `OnPostUpdateMagic`: SuperAdmin only; the definition must exist. Only its editable fields change. */
  method UpdateMagic(world: World, claim: Option<String>, index: int, edit: MagicEdit) returns (r: Outcome<()>)
    modifies world`magicInfos
    ensures !HasPermission(claim, SuperAdmin) ==> r == Fail(Denied(SuperAdmin))
    ensures HasPermission(claim, SuperAdmin) ==> (r.Fail? <==> FindMagicInfo(old(world.magicInfos), index).None?)
    ensures r.Fail? ==> world.magicInfos == old(world.magicInfos)
    ensures r.Ok? ==>
      FindMagicInfo(old(world.magicInfos), index).Some?
      && var i := FindMagicInfo(old(world.magicInfos), index).value;
      world.magicInfos == old(world.magicInfos)[i := old(world.magicInfos)[i].(edit := edit)]
  {
    if !HasPermission(claim, SuperAdmin) {
      return Fail(Denied(SuperAdmin));
    }
    var i := FindMagicInfo(world.magicInfos, index);
    if i.None? {
      return Fail(NotFound(index));
    }
    world.magicInfos := world.magicInfos[i.value := world.magicInfos[i.value].(edit := edit)];
    return Ok(());
  }

  /** The skills of a class: `MagicInfoList.Binding.Where(m => m.Class == mirClass)`. */
  function ClassSkills(infos: seq<MagicInfo>, mirClass: int): seq<MagicInfo> {
    Filter(infos, (m: MagicInfo) => m.mirClass == mirClass)
  }

  datatype GrantCounts = GrantCounts(added: nat, updated: nat)

  /**
   * `OnPostGiveAllSkills`: SuperAdmin only; the player must be online.
   * Every skill of the player's class ends learned at the capped level.
   */
  method GiveAllSkills(world: World, claim: Option<String>, playerName: String, level: int, maxLevel: int)
    returns (r: Outcome<GrantCounts>)
    modifies world`players
    ensures !HasPermission(claim, SuperAdmin) ==> r == Fail(Denied(SuperAdmin))
    ensures HasPermission(claim, SuperAdmin) && FindPlayer(old(world.players), playerName).None? ==> r == Fail(PlayerOffline)
    ensures r.Fail? ==> world.players == old(world.players)
    ensures r.Ok? ==>
      FindPlayer(old(world.players), playerName).Some?
      && var pi := FindPlayer(old(world.players), playerName).value;
      var p := old(world.players)[pi];
      var skills := ClassSkills(world.magicInfos, p.mirClass);
      var book := GrantEach(p.skills, skills, level, maxLevel);
      world.players == old(world.players)[pi := p.(skills := book)]
      && GaveAll(p.skills, book, skills, level, maxLevel, r.value.added, r.value.updated)
    ensures HasPermission(claim, SuperAdmin) && FindPlayer(old(world.players), playerName).Some? ==> r.Ok?
  {
    if !HasPermission(claim, SuperAdmin) {
      return Fail(Denied(SuperAdmin));
    }
    var pi := FindPlayer(world.players, playerName);
    if pi.None? {
      return Fail(PlayerOffline);
    }
    var p := world.players[pi.value];
    var skills := ClassSkills(world.magicInfos, p.mirClass);
    var book, added, updated := GrantAll(p.skills, skills, level, maxLevel);
    world.players := world.players[pi.value := p.(skills := book)];
    return Ok(GrantCounts(added, updated));
  }
}
