/**
 * The sparse stat list of a monster definition (`MonsterInfoStats`): one
 * row per stat kind that has a non-zero amount. `StatsChanged` folds the
 * rows into the monster's effective stats by adding each row's amount to
 * its kind.
 */
module MonsterStats {
  import opened Records
  import opened Query

  /** The effective value of `s`: the sum of the amounts stored for it. */
  function Effective(stats: seq<StatEntry>, s: Stat): int
    decreases |stats|
  {
    if stats == [] then 0
    else (if stats[0].stat == s then stats[0].amount else 0) + Effective(stats[1..], s)
  }

  /** At most one row per stat kind. */
  predicate OnePerStat(stats: seq<StatEntry>) {
    forall i, j :: 0 <= i < j < |stats| ==> stats[i].stat != stats[j].stat
  }

  /** No row stores a zero amount. */
  predicate NoZero(stats: seq<StatEntry>) {
    forall i :: 0 <= i < |stats| ==> stats[i].amount != 0
  }

  predicate Absent(stats: seq<StatEntry>, s: Stat) {
    forall i :: 0 <= i < |stats| ==> stats[i].stat != s
  }

  lemma {:induction false} EffectiveAppend(a: seq<StatEntry>, b: seq<StatEntry>, s: Stat)
    ensures Effective(a + b, s) == Effective(a, s) + Effective(b, s)
    decreases |a|
  {
    if a == [] {
      assert a + b == b;
    } else {
      assert (a + b)[0] == a[0];
      assert (a + b)[1..] == a[1..] + b;
      EffectiveAppend(a[1..], b, s);
    }
  }

  lemma {:induction false} EffectiveAbsent(stats: seq<StatEntry>, s: Stat)
    requires Absent(stats, s)
    ensures Effective(stats, s) == 0
    decreases |stats|
  {
    if stats != [] {
      EffectiveAbsent(stats[1..], s);
    }
  }

  /** Row `i` alone carries kind `s` when the list has one row per kind. */
  lemma EffectiveAt(stats: seq<StatEntry>, i: nat)
    requires OnePerStat(stats) && i < |stats|
    ensures Effective(stats, stats[i].stat) == stats[i].amount
  {
    var s := stats[i].stat;
    assert stats == stats[..i] + [stats[i]] + stats[i + 1..];
    EffectiveAppend(stats[..i] + [stats[i]], stats[i + 1..], s);
    EffectiveAppend(stats[..i], [stats[i]], s);
    EffectiveAbsent(stats[..i], s);
    EffectiveAbsent(stats[i + 1..], s);
  }

  lemma EffectiveSingle(e: StatEntry, t: Stat)
    ensures Effective([e], t) == if e.stat == t then e.amount else 0
  {
    assert [e][1..] == [];
  }

  lemma AppendRow(stats: seq<StatEntry>, s: Stat, v: int)
    ensures forall t :: Effective(stats + [StatEntry(s, v)], t) == Effective(stats, t) + (if t == s then v else 0)
  {
    forall t ensures Effective(stats + [StatEntry(s, v)], t) == Effective(stats, t) + (if t == s then v else 0) {
      EffectiveAppend(stats, [StatEntry(s, v)], t);
      EffectiveSingle(StatEntry(s, v), t);
    }
  }

  /** Removing row `i` takes away its kind's amount and nothing else. */
  lemma RemoveRow(stats: seq<StatEntry>, i: nat)
    requires i < |stats|
    ensures var r := stats[..i] + stats[i + 1..];
      (forall t :: t != stats[i].stat ==> Effective(r, t) == Effective(stats, t))
      && (NoZero(stats) ==> NoZero(r))
      && (OnePerStat(stats) ==> OnePerStat(r) && Absent(r, stats[i].stat) && Effective(r, stats[i].stat) == 0)
  {
    var before, after := stats[..i], stats[i + 1..];
    var r := before + after;
    assert stats == before + [stats[i]] + after;
    forall t ensures Effective(r, t) + (if stats[i].stat == t then stats[i].amount else 0) == Effective(stats, t) {
      EffectiveAppend(before + [stats[i]], after, t);
      EffectiveAppend(before, [stats[i]], t);
      EffectiveAppend(before, after, t);
      EffectiveSingle(stats[i], t);
    }
    assert forall a :: 0 <= a < |r| ==> r[a] == stats[if a < i then a else a + 1];
    if OnePerStat(stats) {
      assert Absent(r, stats[i].stat);
      EffectiveAbsent(r, stats[i].stat);
    }
  }

  /** Overwriting the amount of row `i` changes only its kind's value. */
  lemma ReplaceRow(stats: seq<StatEntry>, i: nat, v: int)
    requires i < |stats|
    ensures var r := stats[i := StatEntry(stats[i].stat, v)];
      (forall t :: t != stats[i].stat ==> Effective(r, t) == Effective(stats, t))
      && (NoZero(stats) && v != 0 ==> NoZero(r))
      && (OnePerStat(stats) ==> OnePerStat(r) && Effective(r, stats[i].stat) == v)
  {
    var before, after := stats[..i], stats[i + 1..];
    var e := StatEntry(stats[i].stat, v);
    var r := stats[i := e];
    assert stats == before + [stats[i]] + after;
    assert r == before + [e] + after;
    forall t | t != stats[i].stat ensures Effective(r, t) == Effective(stats, t) {
      EffectiveAppend(before + [stats[i]], after, t);
      EffectiveAppend(before, [stats[i]], t);
      EffectiveAppend(before + [e], after, t);
      EffectiveAppend(before, [e], t);
      EffectiveSingle(stats[i], t);
      EffectiveSingle(e, t);
    }
    if OnePerStat(stats) {
      EffectiveAt(r, i);
    }
  }

  /**
   * `CreateMonsterStat`: a zero amount stores nothing; any other amount is
   * appended as a new row.
   */
  function CreateStat(stats: seq<StatEntry>, s: Stat, v: int): (r: seq<StatEntry>)
    ensures Effective(r, s) == Effective(stats, s) + v
    ensures forall t :: t != s ==> Effective(r, t) == Effective(stats, t)
    ensures NoZero(stats) ==> NoZero(r)
    ensures OnePerStat(stats) && Absent(stats, s) ==> OnePerStat(r)
  {
    if v == 0 then stats
    else
      AppendRow(stats, s, v);
      stats + [StatEntry(s, v)]
  }

  /**
   * `UpdateMonsterStat`: the first row of kind `s` is removed when `v` is
   * zero and overwritten otherwise; with no such row a non-zero `v` is
   * appended. On a list with one row per kind the effective value of `s`
   * becomes exactly `v`, and every other kind keeps its value.
   */
  function UpdateStat(stats: seq<StatEntry>, s: Stat, v: int): (r: seq<StatEntry>)
    ensures OnePerStat(stats) ==> OnePerStat(r) && Effective(r, s) == v
    ensures OnePerStat(stats) && v == 0 ==> Absent(r, s)
    ensures forall t :: t != s ==> Effective(r, t) == Effective(stats, t)
    ensures NoZero(stats) ==> NoZero(r)
  {
    match FirstIndex(stats, (e: StatEntry) => e.stat == s)
    case Some(i) =>
      if v == 0 then
        RemoveRow(stats, i);
        stats[..i] + stats[i + 1..]
      else
        ReplaceRow(stats, i, v);
        stats[i := StatEntry(s, v)]
    case None =>
      if v == 0 then
        EffectiveAbsent(stats, s);
        stats
      else
        AppendRow(stats, s, v);
        EffectiveAbsent(stats, s);
        stats + [StatEntry(s, v)]
  }

  // ---------------------------------------------------------------------
  // The thirteen stats the monster forms post

  datatype StatForm = StatForm(
    health: int, minAC: int, maxAC: int, minMR: int, maxMR: int,
    minDC: int, maxDC: int, minMC: int, maxMC: int, minSC: int, maxSC: int,
    accuracy: int, agility: int)

  /** The form's values, in the order the pages apply them, one per kind. */
  function FormRows(f: StatForm): (r: seq<StatEntry>)
    ensures |r| == 13 && OnePerStat(r)
    ensures forall i :: 0 <= i < |r| ==> !r[i].stat.OtherStat?
  {
    [StatEntry(Health, f.health), StatEntry(MinAC, f.minAC), StatEntry(MaxAC, f.maxAC),
     StatEntry(MinMR, f.minMR), StatEntry(MaxMR, f.maxMR), StatEntry(MinDC, f.minDC),
     StatEntry(MaxDC, f.maxDC), StatEntry(MinMC, f.minMC), StatEntry(MaxMC, f.maxMC),
     StatEntry(MinSC, f.minSC), StatEntry(MaxSC, f.maxSC), StatEntry(Accuracy, f.accuracy),
     StatEntry(Agility, f.agility)]
  }

  /** The thirteen `CreateMonsterStat` calls of `OnPostCreateMonster`, in order. */
  function CreateAll(stats: seq<StatEntry>, rows: seq<StatEntry>): seq<StatEntry>
    decreases |rows|
  {
    if rows == [] then stats
    else CreateAll(CreateStat(stats, rows[0].stat, rows[0].amount), rows[1..])
  }

  /** The thirteen `UpdateMonsterStat` calls of `OnPostUpdateMonster`, in order. */
  function UpdateAll(stats: seq<StatEntry>, rows: seq<StatEntry>): seq<StatEntry>
    decreases |rows|
  {
    if rows == [] then stats
    else UpdateAll(UpdateStat(stats, rows[0].stat, rows[0].amount), rows[1..])
  }

  function NonZeroRows(rows: seq<StatEntry>): seq<StatEntry> {
    Filter(rows, (e: StatEntry) => e.amount != 0)
  }

  /** The row itself when it is not zero, nothing otherwise. */
  function Kept(e: StatEntry): (r: seq<StatEntry>)
    ensures r == [] <==> e.amount == 0
  {
    if e.amount != 0 then [e] else []
  }

  /** Creating one row appends it exactly when it is not zero. */
  lemma CreateStep(stats: seq<StatEntry>, e: StatEntry)
    ensures CreateStat(stats, e.stat, e.amount) == stats + Kept(e)
  {
  }

  /** The non-zero rows of a run are those of its first row followed by those of the rest. */
  lemma NonZeroCons(rows: seq<StatEntry>)
    requires rows != []
    ensures NonZeroRows(rows) == Kept(rows[0]) + NonZeroRows(rows[1..])
  {
  }

  lemma ConcatAssoc<T>(a: seq<T>, b: seq<T>, c: seq<T>)
    ensures (a + b) + c == a + (b + c)
  {
  }

  /** Creating appends exactly the non-zero rows, in form order: a zero is never stored. */
  lemma {:induction false} CreateAllAppendsNonZero(stats: seq<StatEntry>, rows: seq<StatEntry>)
    ensures CreateAll(stats, rows) == stats + NonZeroRows(rows)
    decreases |rows|
  {
    if rows != [] {
      var rest := NonZeroRows(rows[1..]);
      var s1 := CreateStat(stats, rows[0].stat, rows[0].amount);
      CreateAllAppendsNonZero(s1, rows[1..]);
      CreateStep(stats, rows[0]);
      NonZeroCons(rows);
      ConcatAssoc(stats, Kept(rows[0]), rest);
    }
  }

  lemma {:induction false} NonZeroOnePerStat(rows: seq<StatEntry>)
    requires OnePerStat(rows)
    ensures OnePerStat(NonZeroRows(rows))
    decreases |rows|
  {
    if rows != [] {
      var rest := NonZeroRows(rows[1..]);
      NonZeroOnePerStat(rows[1..]);
      assert forall i :: 0 <= i < |rest| ==> rest[i].stat != rows[0].stat by {
        forall i | 0 <= i < |rest| ensures rest[i].stat != rows[0].stat {
          var j :| 0 <= j < |rows[1..]| && rows[1..][j] == rest[i];
          assert rows[j + 1] == rest[i];
        }
      }
    }
  }

  /** A kind that no row carries is carried by no stored row. */
  lemma NonZeroAbsent(rows: seq<StatEntry>, t: Stat)
    requires Absent(rows, t)
    ensures Absent(NonZeroRows(rows), t)
  {
    var r := NonZeroRows(rows);
    forall i | 0 <= i < |r| ensures r[i].stat != t {
      assert r[i] in rows;
    }
  }

  /** The stored rows give row `k`'s kind exactly row `k`'s amount. */
  lemma NonZeroEffective(rows: seq<StatEntry>, k: nat)
    requires OnePerStat(rows) && k < |rows|
    ensures Effective(NonZeroRows(rows), rows[k].stat) == rows[k].amount
  {
    var r := NonZeroRows(rows);
    NonZeroOnePerStat(rows);
    if rows[k].amount == 0 {
      forall i | 0 <= i < |r| ensures r[i].stat != rows[k].stat {
        assert r[i] in rows && r[i].amount != 0;
      }
      EffectiveAbsent(r, rows[k].stat);
    } else {
      assert rows[k] in r;
      var i :| 0 <= i < |r| && r[i] == rows[k];
      EffectiveAt(r, i);
    }
  }

  /**
   * Creating rows of distinct kinds on an empty list stores one non-zero
   * row per kind, and each kind's effective value is the row's amount;
   * kinds without a row are zero.
   */
  lemma CreateFromRows(rows: seq<StatEntry>)
    requires OnePerStat(rows)
    ensures var r := CreateAll([], rows);
      NoZero(r) && OnePerStat(r)
      && (forall k :: 0 <= k < |rows| ==> Effective(r, rows[k].stat) == rows[k].amount)
      && (forall t :: Absent(rows, t) ==> Effective(r, t) == 0)
  {
    var r := CreateAll([], rows);
    CreateAllAppendsNonZero([], rows);
    assert r == NonZeroRows(rows);
    NonZeroOnePerStat(rows);
    forall k | 0 <= k < |rows| ensures Effective(r, rows[k].stat) == rows[k].amount {
      NonZeroEffective(rows, k);
    }
    forall t | Absent(rows, t) ensures Effective(r, t) == 0 {
      NonZeroAbsent(rows, t);
      EffectiveAbsent(r, t);
    }
  }

  /**
   * A new monster's stat list holds one non-zero row per posted stat, its
   * effective stats are exactly the posted values, and no other kind is set.
   */
  lemma CreateFromForm(f: StatForm)
    ensures var r := CreateAll([], FormRows(f));
      NoZero(r) && OnePerStat(r)
      && (forall k :: 0 <= k < 13 ==> Effective(r, FormRows(f)[k].stat) == FormRows(f)[k].amount)
      && (forall c :: Effective(r, OtherStat(c)) == 0)
  {
    var rows := FormRows(f);
    CreateFromRows(rows);
    forall c ensures Absent(rows, OtherStat(c)) {
    }
  }

  /**
   * Applying a run of updates with distinct kinds: each updated kind ends
   * with exactly its new value, every other kind keeps its value, and the
   * list keeps one row per kind and no zero.
   */
  lemma {:induction false} UpdateAllSpec(stats: seq<StatEntry>, rows: seq<StatEntry>)
    requires OnePerStat(stats) && OnePerStat(rows)
    ensures var r := UpdateAll(stats, rows);
      OnePerStat(r)
      && (NoZero(stats) ==> NoZero(r))
      && (forall k :: 0 <= k < |rows| ==> Effective(r, rows[k].stat) == rows[k].amount)
      && (forall t :: Absent(rows, t) ==> Effective(r, t) == Effective(stats, t))
    decreases |rows|
  {
    if rows != [] {
      var s1 := UpdateStat(stats, rows[0].stat, rows[0].amount);
      var rest := rows[1..];
      assert OnePerStat(rest);
      UpdateAllSpec(s1, rest);
      var r := UpdateAll(stats, rows);
      assert r == UpdateAll(s1, rest);
      forall k | 0 <= k < |rows| ensures Effective(r, rows[k].stat) == rows[k].amount {
        if k == 0 {
          assert Absent(rest, rows[0].stat);
        } else {
          assert rows[k] == rest[k - 1];
        }
      }
      forall t | Absent(rows, t) ensures Effective(r, t) == Effective(stats, t) {
        assert Absent(rest, t);
      }
    }
  }

  /** The thirteen effective stats the detail view reads (`monster.Stats[stat]`). */
  function StatsOf(stats: seq<StatEntry>): StatForm {
    StatForm(
      Effective(stats, Health), Effective(stats, MinAC), Effective(stats, MaxAC),
      Effective(stats, MinMR), Effective(stats, MaxMR), Effective(stats, MinDC),
      Effective(stats, MaxDC), Effective(stats, MinMC), Effective(stats, MaxMC),
      Effective(stats, MinSC), Effective(stats, MaxSC), Effective(stats, Accuracy),
      Effective(stats, Agility))
  }

  /** The detail view of a freshly created monster shows exactly the posted stats. */
  lemma CreateThenRead(f: StatForm)
    ensures StatsOf(CreateAll([], FormRows(f))) == f
  {
    CreateFromForm(f);
    var rows := FormRows(f);
    var r := CreateAll([], rows);
    assert Effective(r, rows[0].stat) == rows[0].amount && Effective(r, rows[1].stat) == rows[1].amount;
    assert Effective(r, rows[2].stat) == rows[2].amount && Effective(r, rows[3].stat) == rows[3].amount;
    assert Effective(r, rows[4].stat) == rows[4].amount && Effective(r, rows[5].stat) == rows[5].amount;
    assert Effective(r, rows[6].stat) == rows[6].amount && Effective(r, rows[7].stat) == rows[7].amount;
    assert Effective(r, rows[8].stat) == rows[8].amount && Effective(r, rows[9].stat) == rows[9].amount;
    assert Effective(r, rows[10].stat) == rows[10].amount && Effective(r, rows[11].stat) == rows[11].amount;
    assert Effective(r, rows[12].stat) == rows[12].amount;
  }

  /**
   * After an update of a list with one row per kind, the detail view shows
   * exactly the posted stats, whatever the list held before.
   */
  lemma UpdateThenRead(stats: seq<StatEntry>, f: StatForm)
    requires OnePerStat(stats)
    ensures StatsOf(UpdateAll(stats, FormRows(f))) == f
  {
    var rows := FormRows(f);
    UpdateAllSpec(stats, rows);
    var r := UpdateAll(stats, rows);
    assert Effective(r, rows[0].stat) == rows[0].amount && Effective(r, rows[1].stat) == rows[1].amount;
    assert Effective(r, rows[2].stat) == rows[2].amount && Effective(r, rows[3].stat) == rows[3].amount;
    assert Effective(r, rows[4].stat) == rows[4].amount && Effective(r, rows[5].stat) == rows[5].amount;
    assert Effective(r, rows[6].stat) == rows[6].amount && Effective(r, rows[7].stat) == rows[7].amount;
    assert Effective(r, rows[8].stat) == rows[8].amount && Effective(r, rows[9].stat) == rows[9].amount;
    assert Effective(r, rows[10].stat) == rows[10].amount && Effective(r, rows[11].stat) == rows[11].amount;
    assert Effective(r, rows[12].stat) == rows[12].amount;
  }
}
