/**
 * The spawn placement search of the monsters page: for each requested
 * unit, draw a random offset around the anchor player, clamp it into the
 * grid, and test up to twenty cells, adopting a redrawn candidate only
 * when it lies on the grid. `System.Random` is a stream of raw draws
 * `rng(0), rng(1), ...`; the spawn primitive's verdict for unit `i` is
 * `accepts(i)`.
 */
module Placement {
  import opened Base
  import opened Records

  const MaxSpawnCount: int := 100
  const MaxSpawnRange: int := 20
  /** A range below 1 is replaced by this, not by 1. */
  const DefaultSpawnRange: int := 3
  const AttemptsPerUnit: nat := 20

  /** `if (count < 1) count = 1; if (count > 100) count = 100;` */
  function NormaliseCount(count: int): (r: int)
    ensures 1 <= r <= MaxSpawnCount
    ensures 1 <= count <= MaxSpawnCount ==> r == count
    ensures count < 1 ==> r == 1
    ensures count > MaxSpawnCount ==> r == MaxSpawnCount
  {
    var c := if count < 1 then 1 else count;
    if c > MaxSpawnCount then MaxSpawnCount else c
  }

  /** `if (range < 1) range = 3; if (range > 20) range = 20;` */
  function NormaliseRange(range: int): (r: int)
    ensures 1 <= r <= MaxSpawnRange
    ensures 1 <= range <= MaxSpawnRange ==> r == range
    ensures range < 1 ==> r == DefaultSpawnRange
    ensures range > MaxSpawnRange ==> r == MaxSpawnRange
  {
    var c := if range < 1 then DefaultSpawnRange else range;
    if c > MaxSpawnRange then MaxSpawnRange else c
  }

  /**
   * `random.Next(lo, hi)` made from the raw draw number `k`: the draw is
   * the offset from `lo` when it lies below `hi - lo`, and 0 otherwise, so
   * every value of the interval can be drawn.
   */
  function Next(rng: nat -> nat, k: nat, lo: int, hi: int): (r: int)
    requires lo < hi
    ensures lo <= r < hi
    ensures rng(k) < hi - lo ==> r == lo + rng(k)
  {
    lo + (if rng(k) < hi - lo then rng(k) else 0)
  }

  predicate InBounds(width: int, height: int, p: Point) {
    0 <= p.x < width && 0 <= p.y < height
  }

  /** `map.GetCell(p)` is non-null (so `p` is on the grid) and has no `Movements`. */
  predicate CellFree(m: LiveMap, p: Point) {
    InBounds(m.width, m.height, p) && p in m.free
  }

  /** `p` is at most `range` cells from `anchor` along each axis. */
  predicate WithinRange(anchor: Point, p: Point, range: int) {
    -range <= p.x - anchor.x <= range && -range <= p.y - anchor.y <= range
  }

  /** The anchor plus the two offsets `Next(-range, range + 1)` drawn at `k` and `k + 1`. */
  function Candidate(anchor: Point, range: int, rng: nat -> nat, k: nat): (r: Point)
    requires range >= 0
    ensures WithinRange(anchor, r, range)
  {
    Point(anchor.x + Next(rng, k, -range, range + 1), anchor.y + Next(rng, k + 1, -range, range + 1))
  }

  /** The four clamps of the first candidate, in the source's order. */
  function ClampToMap(p: Point, width: int, height: int): (r: Point)
    ensures width >= 1 && height >= 1 ==> InBounds(width, height, r)
    ensures InBounds(width, height, p) ==> r == p
  {
    var x := if p.x < 0 then 0 else p.x;
    var y := if p.y < 0 then 0 else p.y;
    var x' := if x >= width then width - 1 else x;
    var y' := if y >= height then height - 1 else y;
    Point(x', y')
  }

  /** Clamping moves a point toward an on-grid anchor, so it stays within range. */
  lemma ClampStaysNear(anchor: Point, p: Point, range: int, width: int, height: int)
    requires InBounds(width, height, anchor) && WithinRange(anchor, p, range)
    ensures WithinRange(anchor, ClampToMap(p, width, height), range)
  {
  }

  /** What one unit's search ends with: whether a free cell was found, the last cell tested, and the next raw draw. */
  datatype Search = Search(found: bool, cell: Point, next: nat)

  /** The cell tested when the search moves on: the candidate drawn at `next` when it is on the grid, else the same cell. */
  function Retry(m: LiveMap, anchor: Point, range: int, rng: nat -> nat, spawnPoint: Point, next: nat): Point
    requires range >= 1
  {
    var c := Candidate(anchor, range, rng, next);
    if InBounds(m.width, m.height, c) then c else spawnPoint
  }

  /**
   * The inner `for (attempt = 0; attempt < 20 && !found; attempt++)` loop
   * from attempt `attempt` on: a free `spawnPoint` ends it, otherwise two
   * draws are spent on the next candidate.
   */
  function SearchFrom(m: LiveMap, anchor: Point, range: int, rng: nat -> nat, spawnPoint: Point, next: nat, attempt: nat)
    : (r: Search)
    requires range >= 1
    ensures r.found ==> CellFree(m, r.cell)
    ensures next <= r.next
    decreases AttemptsPerUnit - attempt
  {
    if attempt >= AttemptsPerUnit then Search(false, spawnPoint, next)
    else if CellFree(m, spawnPoint) then Search(true, spawnPoint, next)
    else SearchFrom(m, anchor, range, rng, Retry(m, anchor, range, rng, spawnPoint, next), next + 2, attempt + 1)
  }

  /** The cells that search tests, in order. */
  function TestedFrom(m: LiveMap, anchor: Point, range: int, rng: nat -> nat, spawnPoint: Point, next: nat, attempt: nat)
    : seq<Point>
    requires range >= 1
    decreases AttemptsPerUnit - attempt
  {
    if attempt >= AttemptsPerUnit then []
    else if CellFree(m, spawnPoint) then [spawnPoint]
    else [spawnPoint] + TestedFrom(m, anchor, range, rng, Retry(m, anchor, range, rng, spawnPoint, next), next + 2, attempt + 1)
  }

  /**
   * The search tests at most the attempts left, starting with `spawnPoint`;
   * it ends on the first free cell, every earlier cell (and, when nothing
   * is found, every cell) was not free, and two draws are spent per cell
   * that was not free.
   */
  lemma {:induction false} SearchFromTests(m: LiveMap, anchor: Point, range: int, rng: nat -> nat, spawnPoint: Point,
                                           next: nat, attempt: nat)
    requires range >= 1
    ensures var r := SearchFrom(m, anchor, range, rng, spawnPoint, next, attempt);
      var t := TestedFrom(m, anchor, range, rng, spawnPoint, next, attempt);
      |t| <= Max(0, AttemptsPerUnit - attempt)
      && (attempt < AttemptsPerUnit ==> |t| >= 1 && t[0] == spawnPoint)
      && (r.found ==> |t| >= 1 && r.cell == t[|t| - 1])
      && (!r.found ==> |t| == Max(0, AttemptsPerUnit - attempt))
      && (forall i :: 0 <= i < |t| && (i < |t| - 1 || !r.found) ==> !CellFree(m, t[i]))
      && r.next == next + 2 * |t| - (if r.found then 2 else 0)
    decreases AttemptsPerUnit - attempt
  {
    if attempt < AttemptsPerUnit && !CellFree(m, spawnPoint) {
      var sp := Retry(m, anchor, range, rng, spawnPoint, next);
      SearchFromTests(m, anchor, range, rng, sp, next + 2, attempt + 1);
      var t' := TestedFrom(m, anchor, range, rng, sp, next + 2, attempt + 1);
      assert TestedFrom(m, anchor, range, rng, spawnPoint, next, attempt) == [spawnPoint] + t';
    }
  }

  /** Every cell of `t` is on the grid. */
  predicate AllOnGrid(width: int, height: int, t: seq<Point>) {
    forall i :: 0 <= i < |t| ==> InBounds(width, height, t[i])
  }

  /** Every cell of `t` is within `range` of `anchor`. */
  predicate AllWithin(anchor: Point, t: seq<Point>, range: int) {
    forall i :: 0 <= i < |t| ==> WithinRange(anchor, t[i], range)
  }

  /**
   * Every cell the search tests stays on a non-empty grid when the first
   * does, and within range of an on-grid anchor when the first is.
   */
  lemma {:induction false} SearchFromNear(m: LiveMap, anchor: Point, range: int, rng: nat -> nat, spawnPoint: Point,
                                          next: nat, attempt: nat)
    requires range >= 1
    ensures InBounds(m.width, m.height, spawnPoint) ==>
      AllOnGrid(m.width, m.height, TestedFrom(m, anchor, range, rng, spawnPoint, next, attempt))
    ensures InBounds(m.width, m.height, anchor) && WithinRange(anchor, spawnPoint, range) ==>
      AllWithin(anchor, TestedFrom(m, anchor, range, rng, spawnPoint, next, attempt), range)
    decreases AttemptsPerUnit - attempt
  {
    if attempt < AttemptsPerUnit && !CellFree(m, spawnPoint) {
      var sp := Retry(m, anchor, range, rng, spawnPoint, next);
      SearchFromNear(m, anchor, range, rng, sp, next + 2, attempt + 1);
      var t' := TestedFrom(m, anchor, range, rng, sp, next + 2, attempt + 1);
      assert TestedFrom(m, anchor, range, rng, spawnPoint, next, attempt) == [spawnPoint] + t';
    }
  }

  /** The whole search for one unit, starting at raw draw `k` with the clamped first candidate. */
  function SpawnSearch(m: LiveMap, anchor: Point, range: int, rng: nat -> nat, k: nat): Search
    requires range >= 1
  {
    SearchFrom(m, anchor, range, rng, ClampToMap(Candidate(anchor, range, rng, k), m.width, m.height), k + 2, 0)
  }

  /** The cells one unit's search tests. */
  function SpawnTested(m: LiveMap, anchor: Point, range: int, rng: nat -> nat, k: nat): seq<Point>
    requires range >= 1
  {
    TestedFrom(m, anchor, range, rng, ClampToMap(Candidate(anchor, range, rng, k), m.width, m.height), k + 2, 0)
  }

  /**
   * One unit's search tests 1 to 20 cells, the clamped candidate first; a
   * found cell is the last one tested and every earlier one was not free;
   * no cell found means twenty cells were not free. Every tested cell is on
   * a non-empty grid and within range of an on-grid anchor, and the search
   * spends two draws for the first candidate and two per retry.
   */
  lemma SpawnSearchTests(m: LiveMap, anchor: Point, range: int, rng: nat -> nat, k: nat)
    requires range >= 1
    ensures var r := SpawnSearch(m, anchor, range, rng, k);
      var t := SpawnTested(m, anchor, range, rng, k);
      1 <= |t| <= AttemptsPerUnit
      && t[0] == ClampToMap(Candidate(anchor, range, rng, k), m.width, m.height)
      && (r.found ==> r.cell == t[|t| - 1] && CellFree(m, r.cell))
      && (!r.found ==> |t| == AttemptsPerUnit)
      && (forall i :: 0 <= i < |t| && (i < |t| - 1 || !r.found) ==> !CellFree(m, t[i]))
      && (m.width >= 1 && m.height >= 1 ==> AllOnGrid(m.width, m.height, t))
      && (InBounds(m.width, m.height, anchor) ==> AllWithin(anchor, t, range))
      && r.next == k + 2 * |t| + (if r.found then 0 else 2)
  {
    var first := Candidate(anchor, range, rng, k);
    var sp := ClampToMap(first, m.width, m.height);
    SearchFromTests(m, anchor, range, rng, sp, k + 2, 0);
    SearchFromNear(m, anchor, range, rng, sp, k + 2, 0);
    if InBounds(m.width, m.height, anchor) {
      ClampStaysNear(anchor, first, range, m.width, m.height);
    }
  }

  /** A found cell is free and near an on-grid anchor; the search spends 2 to 42 draws. */
  lemma SpawnSearchCell(m: LiveMap, anchor: Point, range: int, rng: nat -> nat, k: nat)
    requires range >= 1
    ensures var r := SpawnSearch(m, anchor, range, rng, k);
      (r.found ==> CellFree(m, r.cell))
      && (r.found && InBounds(m.width, m.height, anchor) ==> WithinRange(anchor, r.cell, range))
      && k + 2 <= r.next <= k + 2 * AttemptsPerUnit + 2
  {
    SpawnSearchTests(m, anchor, range, rng, k);
    var t := SpawnTested(m, anchor, range, rng, k);
    if InBounds(m.width, m.height, anchor) {
      assert WithinRange(anchor, t[|t| - 1], range);
    }
  }

  /** The cells placed so far and the next raw draw. */
  datatype Progress = Progress(cells: seq<Point>, next: nat)

  /**
   * The outer loop after its first `n` units, where `search(k)` is a unit's
   * search starting at raw draw `k`: each unit searches from the draw where
   * the previous one stopped, and adds its cell when the search finds one
   * and the spawn primitive accepts it.
   */
  function PlacedBy(search: nat -> Search, accepts: nat -> bool, n: nat): Progress {
    if n == 0 then Progress([], 0)
    else
      var before := PlacedBy(search, accepts, n - 1);
      var r := search(before.next);
      Progress(before.cells + (if r.found && accepts(n - 1) then [r.cell] else []), r.next)
  }

  /** `search` is the spawn search of this module. */
  ghost predicate IsSpawnSearch(m: LiveMap, anchor: Point, range: int, rng: nat -> nat, search: nat -> Search)
    requires range >= 1
  {
    forall k {:trigger SpawnSearch(m, anchor, range, rng, k)} :: search(k) == SpawnSearch(m, anchor, range, rng, k)
  }

  /** The outer loop with the spawn search of this module. */
  function Placed(m: LiveMap, anchor: Point, range: int, rng: nat -> nat, accepts: nat -> bool, n: nat): Progress
    requires range >= 1
  {
    PlacedBy((k: nat) => SpawnSearch(m, anchor, range, rng, k), accepts, n)
  }

  /** `Placed` is `PlacedBy` of any search that is the spawn search. */
  lemma {:induction false} PlacedIs(m: LiveMap, anchor: Point, range: int, rng: nat -> nat, accepts: nat -> bool,
                                    search: nat -> Search, n: nat)
    requires range >= 1 && IsSpawnSearch(m, anchor, range, rng, search)
    ensures PlacedBy(search, accepts, n) == Placed(m, anchor, range, rng, accepts, n)
  {
    if n > 0 {
      PlacedIs(m, anchor, range, rng, accepts, search, n - 1);
      var before := PlacedBy(search, accepts, n - 1);
      assert search(before.next) == SpawnSearch(m, anchor, range, rng, before.next);
    }
  }

  /** The number of units among the first `n` whose spawn the primitive accepts. */
  function Accepted(accepts: nat -> bool, n: nat): (r: nat)
    ensures r <= n
  {
    if n == 0 then 0 else Accepted(accepts, n - 1) + (if accepts(n - 1) then 1 else 0)
  }

  /** Every cell of `t` is free. */
  predicate AllFree(m: LiveMap, t: seq<Point>) {
    forall i :: 0 <= i < |t| ==> CellFree(m, t[i])
  }

  /**
   * For any search whose found cells are free (and near the anchor), the
   * first `n` units place at most one cell each, and only accepted ones;
   * every placed cell is free (and near the anchor).
   */
  lemma {:induction false} PlacedByCells(m: LiveMap, anchor: Point, range: int, search: nat -> Search,
                                         accepts: nat -> bool, n: nat)
    requires forall k :: search(k).found ==> CellFree(m, search(k).cell)
    ensures |PlacedBy(search, accepts, n).cells| <= Accepted(accepts, n) <= n
    ensures AllFree(m, PlacedBy(search, accepts, n).cells)
    ensures (forall k :: search(k).found ==> WithinRange(anchor, search(k).cell, range)) ==>
      AllWithin(anchor, PlacedBy(search, accepts, n).cells, range)
  {
    if n > 0 {
      PlacedByCells(m, anchor, range, search, accepts, n - 1);
    }
  }

  /**
   * With the spawn search, the first `n` units place at most one cell
   * each, and only accepted ones; every placed cell is free, and within
   * range of an on-grid anchor.
   */
  lemma SpawnPlacedCells(m: LiveMap, anchor: Point, range: int, rng: nat -> nat, accepts: nat -> bool,
                         search: nat -> Search, n: nat)
    requires range >= 1 && IsSpawnSearch(m, anchor, range, rng, search)
    ensures |PlacedBy(search, accepts, n).cells| <= Accepted(accepts, n)
    ensures AllFree(m, PlacedBy(search, accepts, n).cells)
    ensures InBounds(m.width, m.height, anchor) ==> AllWithin(anchor, PlacedBy(search, accepts, n).cells, range)
  {
    forall k: nat
      ensures search(k).found ==> CellFree(m, search(k).cell)
      ensures search(k).found && InBounds(m.width, m.height, anchor) ==> WithinRange(anchor, search(k).cell, range)
    {
      SpawnSearchCell(m, anchor, range, rng, k);
    }
    PlacedByCells(m, anchor, range, search, accepts, n);
  }

  /**
   * When every on-grid cell within range of an on-grid anchor is free, the
   * first candidate is taken at once, so the search always succeeds.
   */
  lemma SearchSucceedsWhenFree(m: LiveMap, anchor: Point, range: int, rng: nat -> nat, k: nat)
    requires range >= 1 && InBounds(m.width, m.height, anchor)
    requires forall p :: InBounds(m.width, m.height, p) && WithinRange(anchor, p, range) ==> CellFree(m, p)
    ensures SpawnSearch(m, anchor, range, rng, k).found
  {
    var first := Candidate(anchor, range, rng, k);
    ClampStaysNear(anchor, first, range, m.width, m.height);
    var p := ClampToMap(first, m.width, m.height);
    assert InBounds(m.width, m.height, p) && WithinRange(anchor, p, range);
  }

  /**
   * For any search that always finds a cell, exactly the accepted units
   * are placed.
   */
  lemma {:induction false} PlacedByAllFound(search: nat -> Search, accepts: nat -> bool, n: nat)
    requires forall k :: search(k).found
    ensures |PlacedBy(search, accepts, n).cells| == Accepted(accepts, n)
  {
    if n > 0 {
      PlacedByAllFound(search, accepts, n - 1);
    }
  }

  /**
   * Around an anchor whose neighbourhood is entirely free, every unit finds
   * a cell, so exactly the accepted units are spawned.
   */
  lemma AllAcceptedSpawnWhenFree(m: LiveMap, anchor: Point, range: int, rng: nat -> nat, accepts: nat -> bool, n: nat)
    requires range >= 1 && InBounds(m.width, m.height, anchor)
    requires forall p :: InBounds(m.width, m.height, p) && WithinRange(anchor, p, range) ==> CellFree(m, p)
    ensures |Placed(m, anchor, range, rng, accepts, n).cells| == Accepted(accepts, n)
  {
    var search := (k: nat) => SpawnSearch(m, anchor, range, rng, k);
    forall k: nat
      ensures search(k).found
    {
      SearchSucceedsWhenFree(m, anchor, range, rng, k);
    }
    PlacedByAllFound(search, accepts, n);
  }

  /**
   * The search for one unit, starting at raw draw `k`: the loop computes
   * the spawn search, so a found cell is free. The search is also passed
   * as the ghost value `search` so that callers can reason about its
   * result without unfolding it.
   */
  method FindSpawnCell(m: LiveMap, anchor: Point, range: int, rng: nat -> nat, k: nat, ghost search: nat -> Search)
    returns (found: bool, cell: Point, next: nat)
    requires range >= 1 && IsSpawnSearch(m, anchor, range, rng, search)
    ensures Search(found, cell, next) == search(k)
    ensures found ==> CellFree(m, cell)
  {
    var spawnPoint := ClampToMap(Candidate(anchor, range, rng, k), m.width, m.height);
    next := k + 2;
    found := false;
    var attempt: nat := 0;
    while attempt < AttemptsPerUnit && !found
      invariant attempt <= AttemptsPerUnit && !found
      invariant SearchFrom(m, anchor, range, rng, spawnPoint, next, attempt) == SpawnSearch(m, anchor, range, rng, k)
    {
      if CellFree(m, spawnPoint) {
        found := true;
        break;
      }
      spawnPoint := Retry(m, anchor, range, rng, spawnPoint, next);
      next := next + 2;
      attempt := attempt + 1;
    }
    cell := spawnPoint;
  }

  /**
   * The outer `for (i = 0; i < count; i++)` loop: a unit whose search
   * finds no free cell is skipped, and a found cell counts only when the
   * spawn primitive accepts it. Every placed cell is free, on the grid and
   * within range of an on-grid anchor; with no such cell nothing is placed.
   */
  method PlaceUnits(m: LiveMap, anchor: Point, count: int, range: int, rng: nat -> nat, accepts: nat -> bool,
                    ghost search: nat -> Search)
    returns (placed: seq<Point>, spawned: nat)
    requires range >= 1 && IsSpawnSearch(m, anchor, range, rng, search)
    ensures placed == PlacedBy(search, accepts, Max(0, count)).cells
    ensures spawned == |placed| <= Accepted(accepts, Max(0, count))
    ensures forall i :: 0 <= i < |placed| ==> CellFree(m, placed[i])
    ensures InBounds(m.width, m.height, anchor) ==>
      forall i :: 0 <= i < |placed| ==> WithinRange(anchor, placed[i], range)
    ensures InBounds(m.width, m.height, anchor) && (forall p :: CellFree(m, p) ==> !WithinRange(anchor, p, range)) ==>
      spawned == 0
  {
    placed := [];
    spawned := 0;
    var next: nat := 0;
    var i: nat := 0;
    while i < count
      invariant i <= Max(0, count) && spawned == |placed|
      invariant Progress(placed, next) == PlacedBy(search, accepts, i)
    {
      var found, cell, after := FindSpawnCell(m, anchor, range, rng, next, search);
      if found && accepts(i) {
        placed := placed + [cell];
        spawned := spawned + 1;
      }
      next := after;
      i := i + 1;
    }
    SpawnPlacedCells(m, anchor, range, rng, accepts, search, i);
    assert AllFree(m, placed);
    if InBounds(m.width, m.height, anchor) && |placed| > 0 {
      assert AllWithin(anchor, placed, range);
      assert CellFree(m, placed[0]) && WithinRange(anchor, placed[0], range);
    }
  }
}
