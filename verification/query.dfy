/**
 * The record query engine behind every listing page: `FirstOrDefault`,
 * `Where`, a stable multi-key `OrderBy(..).ThenBy(..)`, and the
 * `Skip((page - 1) * size).Take(size)` pagination with its page count.
 */
module Query {
  import opened Base

  /** `FirstOrDefault(p)`, as the position of the first match. */
  function FirstIndex<T>(s: seq<T>, p: T -> bool): (r: Option<nat>)
    ensures r.Some? ==> r.value < |s| && p(s[r.value])
    ensures r.Some? ==> forall j :: 0 <= j < r.value ==> !p(s[j])
    ensures r.None? <==> forall j :: 0 <= j < |s| ==> !p(s[j])
    decreases |s|
  {
    if s == [] then None
    else if p(s[0]) then Some(0)
    else match FirstIndex(s[1..], p)
      case None => None
      case Some(i) => Some(i + 1)
  }

  /** Two runs whose rows pass their predicates alike, place by place, have their first match at the same place. */
  lemma {:induction false} FirstIndexSame<T, U>(s: seq<T>, p: T -> bool, t: seq<U>, q: U -> bool)
    requires |s| == |t| && forall i :: 0 <= i < |s| ==> p(s[i]) == q(t[i])
    ensures FirstIndex(s, p) == FirstIndex(t, q)
    decreases |s|
  {
    if s != [] && !p(s[0]) {
      FirstIndexSame(s[1..], p, t[1..], q);
    }
  }

  /** `Where(p)`, keeping the order of the rows. */
  function Filter<T>(s: seq<T>, p: T -> bool): (r: seq<T>)
    ensures |r| <= |s|
    ensures forall i :: 0 <= i < |r| ==> r[i] in s && p(r[i])
    ensures forall i :: 0 <= i < |s| && p(s[i]) ==> s[i] in r
    decreases |s|
  {
    if s == [] then []
    else (if p(s[0]) then [s[0]] else []) + Filter(s[1..], p)
  }

  /** Two predicates that agree on every row select the same rows. */
  lemma {:induction false} FilterSame<T>(s: seq<T>, p: T -> bool, q: T -> bool)
    requires forall i :: 0 <= i < |s| ==> p(s[i]) == q(s[i])
    ensures Filter(s, p) == Filter(s, q)
    decreases |s|
  {
    if s != [] {
      FilterSame(s[1..], p, q);
    }
  }

  /** Filtering a run with one more row at the end adds that row when it matches. */
  lemma {:induction false} FilterSnoc<T>(s: seq<T>, x: T, p: T -> bool)
    ensures Filter(s + [x], p) == Filter(s, p) + (if p(x) then [x] else [])
    decreases |s|
  {
    if s == [] {
      assert [x][1..] == [];
    } else {
      assert (s + [x])[1..] == s[1..] + [x];
      FilterSnoc(s[1..], x, p);
    }
  }

  // ---------------------------------------------------------------------
  // Ordering by a list of keys: `OrderBy(k1).ThenBy(k2)...` compares the
  // key lists lexicographically.

  predicate LexLe(a: seq<int>, b: seq<int>)
    decreases |a|
  {
    |a| == 0 || (|b| > 0 && (a[0] < b[0] || (a[0] == b[0] && LexLe(a[1..], b[1..]))))
  }

  lemma {:induction false} LexLeTotal(a: seq<int>, b: seq<int>)
    ensures LexLe(a, b) || LexLe(b, a)
    decreases |a|
  {
    if |a| > 0 && |b| > 0 && a[0] == b[0] {
      LexLeTotal(a[1..], b[1..]);
    }
  }

  lemma {:induction false} LexLeTrans(a: seq<int>, b: seq<int>, c: seq<int>)
    requires LexLe(a, b) && LexLe(b, c)
    ensures LexLe(a, c)
    decreases |a|
  {
    if |a| > 0 && a[0] == b[0] && b[0] == c[0] {
      LexLeTrans(a[1..], b[1..], c[1..]);
    }
  }

  /** The first key decides the order unless the first keys tie. */
  lemma LexLeHead(a: seq<int>, b: seq<int>)
    requires |a| > 0 && LexLe(a, b)
    ensures |b| > 0 && a[0] <= b[0]
  {
  }

  /** On two keys the order is "first key, then second key". */
  lemma LexLePair(a1: int, a2: int, b1: int, b2: int)
    ensures LexLe([a1, a2], [b1, b2]) <==> a1 < b1 || (a1 == b1 && a2 <= b2)
  {
    assert [a1, a2][1..] == [a2] && [a2][1..] == [];
    assert [b1, b2][1..] == [b2] && [b2][1..] == [];
    assert LexLe([a2], [b2]) <==> a2 <= b2;
  }

  predicate SortedBy<T>(s: seq<T>, key: T -> seq<int>) {
    forall i, j :: 0 <= i < j < |s| ==> LexLe(key(s[i]), key(s[j]))
  }

  /** Insert `x` after every element whose key is not above its own. */
  function InsertBy<T>(x: T, s: seq<T>, key: T -> seq<int>): (r: seq<T>)
    ensures |r| == |s| + 1
    ensures multiset(r) == multiset(s) + multiset{x}
    decreases |s|
  {
    if s == [] then [x]
    else if !LexLe(key(s[0]), key(x)) then [x] + s
    else
      assert s == [s[0]] + s[1..];
      [s[0]] + InsertBy(x, s[1..], key)
  }

  lemma {:induction false} InsertBySorted<T>(x: T, s: seq<T>, key: T -> seq<int>)
    requires SortedBy(s, key)
    ensures SortedBy(InsertBy(x, s, key), key)
    decreases |s|
  {
    if s == [] {
    } else if !LexLe(key(s[0]), key(x)) {
      LexLeTotal(key(s[0]), key(x));
      var r := InsertBy(x, s, key);
      forall i, j | 0 <= i < j < |r| ensures LexLe(key(r[i]), key(r[j])) {
        if i == 0 && j > 1 {
          LexLeTrans(key(x), key(s[0]), key(s[j - 1]));
        }
      }
    } else {
      var rest := InsertBy(x, s[1..], key);
      InsertBySorted(x, s[1..], key);
      var r := [s[0]] + rest;
      forall i, j | 0 <= i < j < |r| ensures LexLe(key(r[i]), key(r[j])) {
        if i == 0 {
          var y := rest[j - 1];
          assert y in multiset(rest);
          if y != x {
            assert y in multiset(s[1..]);
            var k :| 0 <= k < |s[1..]| && s[1..][k] == y;
            assert s[k + 1] == y;
          }
        } else {
          assert r[i] == rest[i - 1] && r[j] == rest[j - 1];
        }
      }
    }
  }

  /** A stable insertion sort: `OrderBy` over the key list. */
  function SortBy<T>(s: seq<T>, key: T -> seq<int>): (r: seq<T>)
    ensures |r| == |s|
    ensures multiset(r) == multiset(s)
    ensures SortedBy(r, key)
    decreases |s|
  {
    if s == [] then []
    else
      assert s == s[..|s| - 1] + [s[|s| - 1]];
      InsertBySorted(s[|s| - 1], SortBy(s[..|s| - 1], key), key);
      InsertBy(s[|s| - 1], SortBy(s[..|s| - 1], key), key)
  }

  /** The rows whose key is exactly `k`. */
  function SameKey<T>(key: T -> seq<int>, k: seq<int>): T -> bool {
    (x: T) => key(x) == k
  }

  /** Two key lists that are each at most the other are equal. */
  lemma {:induction false} LexLeAntisymmetric(a: seq<int>, b: seq<int>)
    requires LexLe(a, b) && LexLe(b, a)
    ensures a == b
    decreases |a|
  {
    if |a| > 0 {
      LexLeAntisymmetric(a[1..], b[1..]);
      assert a == [a[0]] + a[1..] && b == [b[0]] + b[1..];
    }
  }

  lemma {:induction false} LexLeRefl(a: seq<int>)
    ensures LexLe(a, a)
    decreases |a|
  {
    if |a| > 0 {
      LexLeRefl(a[1..]);
    }
  }

  /** No row of `s` passes `p`, so filtering keeps nothing. */
  lemma {:induction false} FilterNone<T>(s: seq<T>, p: T -> bool)
    requires forall i :: 0 <= i < |s| ==> !p(s[i])
    ensures Filter(s, p) == []
    decreases |s|
  {
    if s != [] {
      FilterNone(s[1..], p);
    }
  }

  /** In a sorted run that starts above `x`'s key, no row has `x`'s key. */
  lemma KeysAboveDiffer<T>(x: T, s: seq<T>, key: T -> seq<int>)
    requires SortedBy(s, key) && |s| > 0 && !LexLe(key(s[0]), key(x))
    ensures forall i :: 0 <= i < |s| ==> key(s[i]) != key(x)
  {
    LexLeRefl(key(x));
    forall i | 0 <= i < |s| ensures key(s[i]) != key(x) {
      if i > 0 {
        assert LexLe(key(s[0]), key(s[i]));
      }
    }
  }

  /** Inserting `x` into a sorted run puts it after every row with the same key. */
  lemma {:induction false} InsertByStable<T>(x: T, s: seq<T>, key: T -> seq<int>, k: seq<int>)
    requires SortedBy(s, key)
    ensures Filter(InsertBy(x, s, key), SameKey(key, k))
      == Filter(s, SameKey(key, k)) + (if key(x) == k then [x] else [])
    decreases |s|
  {
    var q := SameKey(key, k);
    if s == [] {
      assert [x][1..] == [];
    } else if !LexLe(key(s[0]), key(x)) {
      assert ([x] + s)[1..] == s;
      if key(x) == k {
        KeysAboveDiffer(x, s, key);
        forall i | 0 <= i < |s| ensures !q(s[i]) {
          assert key(s[i]) != key(x);
        }
        FilterNone(s, q);
      }
    } else {
      assert s == [s[0]] + s[1..];
      var rest := InsertBy(x, s[1..], key);
      assert ([s[0]] + rest)[1..] == rest;
      InsertByStable(x, s[1..], key, k);
    }
  }

  /**
   * `OrderBy` is stable: the rows that share any one key come out in the
   * order they went in.
   */
  lemma {:induction false} SortByStable<T>(s: seq<T>, key: T -> seq<int>, k: seq<int>)
    ensures Filter(SortBy(s, key), SameKey(key, k)) == Filter(s, SameKey(key, k))
    decreases |s|
  {
    if s != [] {
      var init := s[..|s| - 1];
      var last := s[|s| - 1];
      var q := SameKey(key, k);
      var tail := if q(last) then [last] else [];
      calc {
        Filter(SortBy(s, key), q);
        Filter(InsertBy(last, SortBy(init, key), key), q);
        { InsertByStable(last, SortBy(init, key), key, k); }
        Filter(SortBy(init, key), q) + tail;
        { SortByStable(init, key, k); }
        Filter(init, q) + tail;
        { FilterSnoc(init, last, q); }
        Filter(init + [last], q);
        { assert s == init + [last]; }
        Filter(s, q);
      }
    }
  }

  // ---------------------------------------------------------------------
  // Pagination

  /** `Enumerable.Skip(n)`: a negative count skips nothing. */
  function Skip<T>(s: seq<T>, n: int): seq<T> {
    if n <= 0 then s else if n >= |s| then [] else s[n..]
  }

  /** `Enumerable.Take(n)`: a non-positive count takes nothing. */
  function Take<T>(s: seq<T>, n: int): seq<T> {
    if n <= 0 then [] else if n >= |s| then s else s[..n]
  }

  /** The first row that page `page` of size `size` shows. */
  function PageOffset(page: int, size: int): nat {
    Max(0, (page - 1) * size)
  }

  /** `Skip((page - 1) * size).Take(size)`. */
  function Paginate<T>(s: seq<T>, page: int, size: int): (r: seq<T>)
    ensures |r| == Max(0, Min(size, |s| - PageOffset(page, size)))
    ensures forall i :: 0 <= i < |r| ==> r[i] == s[PageOffset(page, size) + i]
  {
    Take(Skip(s, (page - 1) * size), size)
  }

  /** A page number below 1 shows the first page. */
  lemma PageBelowOne<T>(s: seq<T>, page: int, size: int)
    requires page < 1 && size >= 0
    ensures Paginate(s, page, size) == Paginate(s, 1, size)
  {
    assert (page - 1) * size <= 0 by {
      assert (1 - page) * size >= 0;
    }
  }

  /** `(count + size - 1) / size`: the number of pages needed for `count` rows. */
  function TotalPages(count: nat, size: int): (r: nat)
    requires size >= 1
    ensures r * size >= count
    ensures r > 0 ==> (r - 1) * size < count
    ensures r == 0 <==> count == 0
  {
    var r := (count + size - 1) / size;
    assert r * size + (count + size - 1) % size == count + size - 1;
    r
  }

  /** Products with a non-negative factor keep the order of the other factor. */
  lemma MulLe(a: int, b: int, c: int)
    requires a <= b && c >= 0
    ensures a * c <= b * c
  {
    assert b * c - a * c == (b - a) * c;
  }

  /** Division of a row number by the page size. */
  lemma DivModRow(i: nat, size: int)
    requires size >= 1
    ensures i / size >= 0 && 0 <= i % size < size
    ensures (i / size) * size + i % size == i && (i / size) * size >= 0
  {
    MulLe(0, i / size, size);
  }

  /** A page whose first row exists is within the page count. */
  lemma PageWithin(count: nat, size: int, q: int)
    requires size >= 1 && q >= 0 && q * size < count
    ensures q + 1 <= TotalPages(count, size)
  {
    var t := TotalPages(count, size);
    if t <= q {
      MulLe(t, q, size);
    }
  }

  /** Row `i` is shown on page `i / size + 1`, which is one of the `TotalPages`. */
  lemma PageOfRow<T>(s: seq<T>, size: int, i: nat)
    requires size >= 1 && i < |s|
    ensures 1 <= i / size + 1 <= TotalPages(|s|, size)
    ensures var p := Paginate(s, i / size + 1, size);
      i % size < |p| && p[i % size] == s[i]
  {
    var q := i / size;
    var m := i % size;
    var o := q * size;
    DivModRow(i, size);
    PageWithin(|s|, size, q);
    assert (q + 1 - 1) * size == o;
    assert PageOffset(q + 1, size) == o;
  }

  /** A page holds rows of its input, and a page of a sorted run is sorted. */
  lemma PaginateKeeps<T>(s: seq<T>, page: int, size: int, key: T -> seq<int>)
    ensures forall i :: 0 <= i < |Paginate(s, page, size)| ==> Paginate(s, page, size)[i] in s
    ensures SortedBy(s, key) ==> SortedBy(Paginate(s, page, size), key)
  {
    var r := Paginate(s, page, size);
    var o := PageOffset(page, size);
    if SortedBy(s, key) {
      forall i, j | 0 <= i < j < |r| ensures LexLe(key(r[i]), key(r[j])) {
        assert r[i] == s[o + i] && r[j] == s[o + j];
      }
    }
  }

  datatype PageResult<T> = PageResult(items: seq<T>, totalCount: nat)

  /**
   * Filter, order and page: `TotalCount` counts every matching row, the page
   * holds at most `size` of them, in key order.
   */
  function RunQuery<T>(rows: seq<T>, p: T -> bool, key: T -> seq<int>, page: int, size: int): (r: PageResult<T>)
    requires size >= 1
    ensures r.totalCount == |Filter(rows, p)|
    ensures r.items == Paginate(SortBy(Filter(rows, p), key), page, size)
    ensures |r.items| == Max(0, Min(size, r.totalCount - PageOffset(page, size)))
    ensures SortedBy(r.items, key)
    ensures forall i :: 0 <= i < |r.items| ==> r.items[i] in rows && p(r.items[i])
  {
    var matching := Filter(rows, p);
    var sorted := SortBy(matching, key);
    PaginateKeeps(sorted, page, size, key);
    var items := Paginate(sorted, page, size);
    forall i | 0 <= i < |items| ensures items[i] in rows && p(items[i]) {
      assert items[i] in multiset(sorted);
      assert items[i] in matching;
    }
    PageResult(items, |matching|)
  }

  /** Every matching row appears on one of the `TotalPages` pages. */
  lemma RunQueryCovers<T>(rows: seq<T>, p: T -> bool, key: T -> seq<int>, size: int, x: T)
    requires size >= 1
    requires x in rows && p(x)
    ensures exists page ::
      (1 <= page <= TotalPages(|Filter(rows, p)|, size) && x in RunQuery(rows, p, key, page, size).items)
  {
    var sorted := SortBy(Filter(rows, p), key);
    assert x in multiset(sorted);
    var i :| 0 <= i < |sorted| && sorted[i] == x;
    PageOfRow(sorted, size, i);
    var page := i / size + 1;
    assert RunQuery(rows, p, key, page, size).items == Paginate(sorted, page, size);
    assert Paginate(sorted, page, size)[i % size] == x;
  }

  /** A later page starts at or after the end of an earlier one. */
  lemma PageOffsetsApart(size: int, p1: int, p2: int)
    requires size >= 1 && 1 <= p1 < p2
    ensures PageOffset(p1, size) + size <= PageOffset(p2, size)
  {
    MulLe(0, p1 - 1, size);
    MulLe(p1, p2 - 1, size);
    assert (p1 - 1) * size + size == p1 * size;
  }

  /** The pages of a sorted sequence follow each other in key order. */
  lemma PagesOfSortedInOrder<T>(s: seq<T>, key: T -> seq<int>, size: int, p1: int, p2: int)
    requires SortedBy(s, key) && size >= 1 && 1 <= p1 < p2
    ensures var a := Paginate(s, p1, size);
      var b := Paginate(s, p2, size);
      forall i, j :: 0 <= i < |a| && 0 <= j < |b| ==> LexLe(key(a[i]), key(b[j]))
  {
    var a := Paginate(s, p1, size);
    var b := Paginate(s, p2, size);
    PageOffsetsApart(size, p1, p2);
    var o1 := PageOffset(p1, size);
    var o2 := PageOffset(p2, size);
    forall i, j | 0 <= i < |a| && 0 <= j < |b| ensures LexLe(key(a[i]), key(b[j])) {
      assert a[i] == s[o1 + i] && b[j] == s[o2 + j];
      assert o1 + i < o2 + j;
    }
  }

  /** Pages follow each other in key order: no row of an earlier page sorts after a row of a later one. */
  lemma PagesInOrder<T>(rows: seq<T>, p: T -> bool, key: T -> seq<int>, size: int, p1: int, p2: int)
    requires size >= 1 && 1 <= p1 < p2
    ensures var a := RunQuery(rows, p, key, p1, size).items;
      var b := RunQuery(rows, p, key, p2, size).items;
      forall i, j :: 0 <= i < |a| && 0 <= j < |b| ==> LexLe(key(a[i]), key(b[j]))
  {
    PagesOfSortedInOrder(SortBy(Filter(rows, p), key), key, size, p1, p2);
  }
}
