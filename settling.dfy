/** How a single grain of Sand settles over successive ticks: a tick of a
    grid whose only moving material is one Sand cell is the visit of that
    cell, the grain falls its weight in rows per tick down an open column,
    and once the three cells below it refuse it, every later tick leaves
    the grid unchanged. */
module Settling {
  import opened Materials
  import opened Geometry
  import opened Rules

  /** The only Sand or Water of grid `s` is one Sand cell, at flat index k. */
  ghost predicate LoneSand(s: seq<Element>, k: int) {
    && 0 <= k < |s| && s[k] == Sand
    && forall j :: 0 <= j < |s| && j != k ==> s[j] != Sand && s[j] != Water
  }

  /** A lone Sand grid is exactly one holding one Sand, at k, and no Water. */
  lemma LoneSandCount(s: seq<Element>, k: int)
    ensures LoneSand(s, k) <==>
              0 <= k < |s| && s[k] == Sand && multiset(s)[Sand] == 1 && multiset(s)[Water] == 0
  {
    if 0 <= k < |s| && s[k] == Sand {
      assert s == s[..k] + [s[k]] + s[k + 1..];
      if LoneSand(s, k) {
        assert Sand !in s[..k] && Sand !in s[k + 1..];
        assert Water !in s;
      }
      if multiset(s)[Sand] == 1 && multiset(s)[Water] == 0 {
        forall j | 0 <= j < |s| && j != k
          ensures s[j] != Sand && s[j] != Water
        {
          if j < k {
            assert s[j] in s[..k];
          } else {
            assert s[j] in s[k + 1..];
          }
        }
      }
    }
  }

  /** Visits of cells that hold neither Sand nor Water change nothing: the
      scan up to index i leaves the grid the scan up to m left when that
      grid is inert at the indices m .. i-1. */
  lemma {:induction false} ScanInert(t: Table, w: int, h: int, s: seq<Element>, m: int, i: int, direction: int)
    requires Terminating(t) && IsGrid(w, h, s) && 0 <= m <= i <= |s|
    requires var r := Scan(t, w, h, s, m, direction);
             forall j :: m <= j < i ==> r[j] != Sand && r[j] != Water
    ensures Scan(t, w, h, s, i, direction) == Scan(t, w, h, s, m, direction)
    decreases i
  {
    if i > m {
      ScanInert(t, w, h, s, m, i - 1, direction);
    }
  }

  /** The scan reaches a lone Sand cell at (x, y) with the grid unchanged,
      so its visit is the cell's fall on the grid as it was. */
  lemma ScanToLoneSand(t: Table, w: int, h: int, s: seq<Element>, x: int, y: int, direction: int)
    requires Terminating(t) && IsGrid(w, h, s) && InBounds(w, h, x, y) && LoneSand(s, Idx(w, h, x, y))
    ensures Scan(t, w, h, s, Idx(w, h, x, y) + 1, direction) ==
            Fall(t, w, h, s, x, y, WeightOf(t, Sand), direction, true).at.grid
  {
    CoordsOfIdx(w, h, x, y);
    ScanInert(t, w, h, s, 0, Idx(w, h, x, y), direction);
  }

  /** The fall of a lone Sand cell leaves it alone, at an index no greater:
      it only moves into lower rows, or stays. */
  lemma FallLoneSand(t: Table, w: int, h: int, s: seq<Element>, x: int, y: int, steps: nat, direction: int)
    requires IsGrid(w, h, s) && InBounds(w, h, x, y) && LoneSand(s, Idx(w, h, x, y))
    ensures var l := Fall(t, w, h, s, x, y, steps, direction, true);
            && OnGrid(w, h, l.at) && Idx(w, h, l.at.x, l.at.y) <= Idx(w, h, x, y)
            && LoneSand(l.at.grid, Idx(w, h, l.at.x, l.at.y))
  {
    var l := Fall(t, w, h, s, x, y, steps, direction, true);
    FallBounds(t, w, h, s, x, y, steps, direction, true);
    FallKeeps(t, w, h, s, x, y, steps, direction, true);
    FallCarries(t, w, h, s, x, y, steps, direction, true);
    if l.at.y < y {
      IdxBelow(w, h, l.at.x, l.at.y, x, y);
    } else {
      assert l.at.x == x && l.at.y == y;
    }
    LoneSandCount(s, Idx(w, h, x, y));
    LoneSandCount(l.at.grid, Idx(w, h, l.at.x, l.at.y));
  }

  /** A tick of a grid whose only moving material is one Sand cell at (x, y)
      is that cell's fall: the cells before it are inert when visited, and
      the grain only moves to lower indices, which the scan has passed.
      Afterwards the grain is still alone, at an index no greater. */
  lemma TickLoneSand(t: Table, w: int, h: int, s: seq<Element>, x: int, y: int, direction: int)
    requires Terminating(t) && IsGrid(w, h, s) && InBounds(w, h, x, y) && LoneSand(s, Idx(w, h, x, y))
    ensures var l := Fall(t, w, h, s, x, y, WeightOf(t, Sand), direction, true);
            && Tick(t, w, h, s, direction) == l.at.grid
            && OnGrid(w, h, l.at) && Idx(w, h, l.at.x, l.at.y) <= Idx(w, h, x, y)
            && LoneSand(l.at.grid, Idx(w, h, l.at.x, l.at.y))
  {
    var k := Idx(w, h, x, y);
    ScanToLoneSand(t, w, h, s, x, y, direction);
    FallLoneSand(t, w, h, s, x, y, WeightOf(t, Sand), direction);
    var l := Fall(t, w, h, s, x, y, WeightOf(t, Sand), direction, true);
    var p := Idx(w, h, l.at.x, l.at.y);
    forall j | k + 1 <= j < |s|
      ensures l.at.grid[j] != Sand && l.at.grid[j] != Water
    {
      assert j != p;
    }
    ScanInert(t, w, h, s, k + 1, |s|, direction);
  }

  /** A lone grain above a column of m open cells whose lowest cell rests
      falls straight down min(m, weight) rows in one tick, whatever the
      direction, and no row outside those it fell through changes. */
  lemma TickSandDrops(t: Table, w: int, h: int, s: seq<Element>, x: int, y: int, m: nat, direction: int)
    requires Terminating(t) && IsGrid(w, h, s) && InBounds(w, h, x, y) && LoneSand(s, Idx(w, h, x, y))
    requires forall j :: y - m <= j < y ==> Open(t, w, h, s, x, j, true)
    requires Resting(t, w, h, s, x, y - m, true)
    ensures InBounds(w, h, x, y - Min(m, WeightOf(t, Sand)))
    ensures var r := Tick(t, w, h, s, direction);
            && LoneSand(r, Idx(w, h, x, y - Min(m, WeightOf(t, Sand))))
            && RowsKept(w, h, s, r, y - Min(m, WeightOf(t, Sand)), y)
  {
    TickLoneSand(t, w, h, s, x, y, direction);
    FallStops(t, w, h, s, x, y, m, WeightOf(t, Sand), direction, true);
  }

  /** A lone grain whose three cells below refuse it is at rest: the tick
      leaves the whole grid unchanged, whatever the direction. */
  lemma TickSandRests(t: Table, w: int, h: int, s: seq<Element>, x: int, y: int, direction: int)
    requires Terminating(t) && IsGrid(w, h, s) && InBounds(w, h, x, y) && LoneSand(s, Idx(w, h, x, y))
    requires Resting(t, w, h, s, x, y, true)
    ensures Tick(t, w, h, s, direction) == s
  {
    TickLoneSand(t, w, h, s, x, y, direction);
    FallRests(t, w, h, s, x, y, WeightOf(t, Sand), direction, true);
  }

  /** The grid after one tick per entry of `directions`, each tick drawing
      its own direction. */
  function Ticks(t: Table, w: int, h: int, s: seq<Element>, directions: seq<int>): (r: seq<Element>)
    requires Terminating(t) && IsGrid(w, h, s)
    ensures IsGrid(w, h, r)
    decreases |directions|
  {
    if directions == [] then s else Ticks(t, w, h, Tick(t, w, h, s, directions[0]), directions[1..])
  }

  /** A grain at rest stays at rest: any number of further ticks leave the
      grid unchanged. */
  lemma {:induction false} TicksSandRests(t: Table, w: int, h: int, s: seq<Element>, x: int, y: int, directions: seq<int>)
    requires Terminating(t) && IsGrid(w, h, s) && InBounds(w, h, x, y) && LoneSand(s, Idx(w, h, x, y))
    requires Resting(t, w, h, s, x, y, true)
    ensures Ticks(t, w, h, s, directions) == s
    decreases |directions|
  {
    if directions != [] {
      TickSandRests(t, w, h, s, x, y, directions[0]);
      TicksSandRests(t, w, h, s, x, y, directions[1..]);
    }
  }

  /** After one tick that carries a grain min(m, weight) rows, the ticks
      left can still carry it the rest of the way. */
  lemma FewerTicks(n: nat, weight: int, m: nat)
    requires 0 < n && 0 <= weight && m <= n * weight
    ensures m - Min(m, weight) <= (n - 1) * weight
  {
    assert n * weight == (n - 1) * weight + weight;
    assert 0 <= (n - 1) * weight;
  }

  /** A lone grain above a column of m open cells whose lowest cell rests
      reaches the bottom of the column within any run of ticks that could
      carry it m rows at its weight per tick, and rests there. */
  lemma {:induction false} TicksSandFalls(t: Table, w: int, h: int, s: seq<Element>, x: int, y: int, m: nat, directions: seq<int>)
    requires Terminating(t) && IsGrid(w, h, s) && InBounds(w, h, x, y) && LoneSand(s, Idx(w, h, x, y))
    requires forall j :: y - m <= j < y ==> Open(t, w, h, s, x, j, true)
    requires Resting(t, w, h, s, x, y - m, true)
    requires m <= |directions| * WeightOf(t, Sand)
    ensures InBounds(w, h, x, y - m)
    ensures var r := Ticks(t, w, h, s, directions);
            LoneSand(r, Idx(w, h, x, y - m)) && Resting(t, w, h, r, x, y - m, true) && RowsKept(w, h, s, r, y - m, y)
    decreases |directions|
  {
    var n := WeightOf(t, Sand);
    if directions == [] {
      assert m == 0;
    } else {
      var d := Min(m, n);
      TickSandDrops(t, w, h, s, x, y, m, directions[0]);
      var r := Tick(t, w, h, s, directions[0]);
      forall j | y - m <= j < y - d
        ensures Open(t, w, h, r, x, j, true)
      {
        assert Open(t, w, h, s, x, j, true);
      }
      RestingKept(t, w, h, s, r, x, y - m, y - d, y, true);
      FewerTicks(|directions|, n, m);
      TicksSandFalls(t, w, h, r, x, y - d, m - d, directions[1..]);
      assert Ticks(t, w, h, s, directions) == Ticks(t, w, h, r, directions[1..]);
      RowsKeptTransitive(w, h, s, r, Ticks(t, w, h, s, directions), y - d, y, y - m, y - d, y - m, y);
    }
  }

  /** Powder settling: on a sealed grid, a lone grain of Sand of weight at
      least one above an open column reaches row 1, the lowest row inside
      the Bedrock border, within y - 1 ticks, fewer than the grid's height,
      and every tick after that leaves the grid unchanged. */
  lemma PowderSettles(t: Table, w: int, h: int, s: seq<Element>, x: int, y: int, directions: seq<int>, later: seq<int>)
    requires Terminating(t) && BorderIsWall(t, w, h, s) && InBounds(w, h, x, y) && LoneSand(s, Idx(w, h, x, y))
    requires WeightOf(t, Sand) >= 1
    requires forall j :: 1 <= j < y ==> Open(t, w, h, s, x, j, true)
    requires |directions| >= y - 1
    ensures 1 <= y && y - 1 < h && InBounds(w, h, x, 1)
    ensures var r := Ticks(t, w, h, s, directions);
            LoneSand(r, Idx(w, h, x, 1)) && Ticks(t, w, h, r, later) == r
  {
    var k := Idx(w, h, x, y);
    MoverIsInterior(t, w, h, s, k);
    CoordsOfIdx(w, h, x, y);
    forall px | x - 1 <= px <= x + 1
      ensures !Open(t, w, h, s, px, 0, true)
    {
      assert OnBorder(w, h, px, 0);
    }
    assert |directions| * WeightOf(t, Sand) >= |directions|;
    TicksSandFalls(t, w, h, s, x, y, y - 1, directions);
    TicksSandRests(t, w, h, Ticks(t, w, h, s, directions), x, 1, later);
  }
}
