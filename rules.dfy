/** The movement rules of one simulation tick, stated on the value of the
    grid (a row-major sequence of materials). The grid class in module Grid
    runs them in place and is proved to agree with these functions.

    The rule functions read a neighbour only when it lies inside the grid
    and treat a missing neighbour as refusing. On a sealed grid (see
    BorderIsWall) every cell that moves is off the border, so all its
    neighbours exist and this guard never decides anything. */
module Rules {
  import opened Materials
  import opened Geometry

  datatype Option<T> = None | Some(value: T)

  function Abs(n: int): nat {
    if n < 0 then -n else n
  }

  /** A w x h grid: a row-major sequence of w * h materials. */
  predicate IsGrid(w: int, h: int, s: seq<Element>) {
    0 <= w && 0 <= h && |s| == Cells(w, h)
  }

  /** Exchange of two cells, the only way material moves. */
  function Swap(s: seq<Element>, a: int, b: int): (r: seq<Element>)
    requires 0 <= a < |s| && 0 <= b < |s|
    ensures |r| == |s| && r[a] == s[b] && r[b] == s[a]
    ensures forall k {:trigger r[k]} :: 0 <= k < |s| && k != a && k != b ==> r[k] == s[k]
  {
    s[a := s[b]][b := s[a]]
  }

  /** Swapping the same two cells again restores the grid. */
  lemma SwapTwice(s: seq<Element>, a: int, b: int)
    requires 0 <= a < |s| && 0 <= b < |s|
    ensures Swap(Swap(s, a, b), a, b) == s
  {
  }

  /** A swap neither creates nor destroys material. */
  lemma SwapPermutes(s: seq<Element>, a: int, b: int)
    requires 0 <= a < |s| && 0 <= b < |s|
    ensures multiset(Swap(s, a, b)) == multiset(s)
  {
  }

  /** Whether a cell of material `e` may be displaced by a moving cell: empty
      cells always, liquid cells only by a moving cell that sinks (powder). */
  predicate Accepts(t: Table, e: Element, sinks: bool)
    ensures TypeOf(t, e) == Empty ==> Accepts(t, e, sinks)
    ensures Accepts(t, e, sinks) ==> !IsWall(t, e)
  {
    TypeOf(t, e) == Empty || (sinks && TypeOf(t, e) == Liquid)
  }

  /** Whether (x, y) is a cell of the grid that accepts a moving cell. */
  predicate Open(t: Table, w: int, h: int, s: seq<Element>, x: int, y: int, sinks: bool)
    requires IsGrid(w, h, s)
  {
    InBounds(w, h, x, y) && Accepts(t, s[Idx(w, h, x, y)], sinks)
  }

  /** Material that can seal the grid's edge: the scan never moves it and no
      rule ever moves into it. Bedrock is one as long as its type is neither
      Empty nor Liquid. */
  predicate IsWall(t: Table, e: Element) {
    e != Sand && e != Water && TypeOf(t, e) != Empty && TypeOf(t, e) != Liquid
  }

  /** A w x h grid whose border cells all hold wall material. */
  ghost predicate BorderIsWall(t: Table, w: int, h: int, s: seq<Element>) {
    && IsGrid(w, h, s)
    && forall x, y {:trigger s[Idx(w, h, x, y)]} :: InBounds(w, h, x, y) && OnBorder(w, h, x, y) ==> IsWall(t, s[Idx(w, h, x, y)])
  }

  /** The border cells of `r` are those of `s`. */
  ghost predicate BorderKept(w: int, h: int, s: seq<Element>, r: seq<Element>) {
    && IsGrid(w, h, s) && IsGrid(w, h, r)
    && forall x, y {:trigger r[Idx(w, h, x, y)]} {:trigger s[Idx(w, h, x, y)]} ::
         InBounds(w, h, x, y) && OnBorder(w, h, x, y) ==> r[Idx(w, h, x, y)] == s[Idx(w, h, x, y)]
  }

  /** The cells of `r` outside the rows lo..hi are those of `s`. */
  ghost predicate RowsKept(w: int, h: int, s: seq<Element>, r: seq<Element>, lo: int, hi: int) {
    && IsGrid(w, h, s) && IsGrid(w, h, r)
    && forall x, y {:trigger r[Idx(w, h, x, y)]} {:trigger s[Idx(w, h, x, y)]} ::
         InBounds(w, h, x, y) && (y < lo || y > hi) ==> r[Idx(w, h, x, y)] == s[Idx(w, h, x, y)]
  }

  /** Two changes confined to row ranges are together confined to any
      range covering both. */
  lemma RowsKeptTransitive(w: int, h: int, s: seq<Element>, m: seq<Element>, r: seq<Element>, lo1: int, hi1: int, lo2: int, hi2: int, lo: int, hi: int)
    requires RowsKept(w, h, s, m, lo1, hi1) && RowsKept(w, h, m, r, lo2, hi2)
    requires lo <= lo1 && lo <= lo2 && hi1 <= hi && hi2 <= hi
    ensures RowsKept(w, h, s, r, lo, hi)
  {
  }

  lemma KeptTransitive(w: int, h: int, s: seq<Element>, m: seq<Element>, r: seq<Element>)
    requires BorderKept(w, h, s, m) && BorderKept(w, h, m, r)
    ensures BorderKept(w, h, s, r)
  {
  }

  /** A moving cell at (x, y) of a sealed grid. */
  ghost predicate Moveable(t: Table, w: int, h: int, s: seq<Element>, x: int, y: int) {
    BorderIsWall(t, w, h, s) && Interior(w, h, x, y)
  }

  /** On a sealed grid the material at a Sand or Water cell is off the border. */
  lemma MoverIsInterior(t: Table, w: int, h: int, s: seq<Element>, k: int)
    requires BorderIsWall(t, w, h, s) && 0 <= k < |s| && (s[k] == Sand || s[k] == Water)
    ensures InBounds(w, h, Col(w, k), Row(w, k)) && Idx(w, h, Col(w, k), Row(w, k)) == k
    ensures Interior(w, h, Col(w, k), Row(w, k))
  {
    IdxOfCoords(w, h, k);
  }

  /** A cell that a moving cell may enter is never on the sealed border, and
      trading places with it keeps the border, the material and the seal. */
  lemma Step(t: Table, w: int, h: int, s: seq<Element>, x: int, y: int, x2: int, y2: int)
    requires Moveable(t, w, h, s, x, y)
    requires InBounds(w, h, x2, y2) && !IsWall(t, s[Idx(w, h, x2, y2)])
    ensures Interior(w, h, x2, y2)
    ensures var r := Swap(s, Idx(w, h, x, y), Idx(w, h, x2, y2));
              Moveable(t, w, h, r, x2, y2) && BorderKept(w, h, s, r) && multiset(r) == multiset(s)
  {
    var a, b := Idx(w, h, x, y), Idx(w, h, x2, y2);
    var r := Swap(s, a, b);
    forall px, py | InBounds(w, h, px, py) && OnBorder(w, h, px, py)
      ensures r[Idx(w, h, px, py)] == s[Idx(w, h, px, py)]
    {
      IdxInjective(w, h, px, py, x, y);
      IdxInjective(w, h, px, py, x2, y2);
    }
    SwapPermutes(s, a, b);
  }

  /** The column offset (Right when `direction` is non-zero, else Left)
      that a cell tries first; the opposite offset is tried second. */
  function Preferred(direction: int): (dx: int)
    ensures dx == 1 || dx == -1
    ensures dx == 1 <==> direction != 0
  {
    if direction != 0 then 1 else -1
  }

  /** The first cell of the row below that accepts the moving cell, tried in
      the order Below, preferred diagonal, other diagonal; given as a column
      offset. */
  function FallTarget(t: Table, w: int, h: int, s: seq<Element>, x: int, y: int, direction: int, sinks: bool): (dx: Option<int>)
    requires IsGrid(w, h, s)
    ensures dx.Some? ==> -1 <= dx.value <= 1 && Open(t, w, h, s, x + dx.value, y - 1, sinks)
    ensures dx.None? ==> !Open(t, w, h, s, x, y - 1, sinks) && !Open(t, w, h, s, x - 1, y - 1, sinks) && !Open(t, w, h, s, x + 1, y - 1, sinks)
    ensures Open(t, w, h, s, x, y - 1, sinks) <==> dx == Some(0)
    ensures dx == Some(Preferred(direction)) ==> !Open(t, w, h, s, x, y - 1, sinks)
    ensures dx == Some(-Preferred(direction)) ==> !Open(t, w, h, s, x, y - 1, sinks) && !Open(t, w, h, s, x + Preferred(direction), y - 1, sinks)
  {
    var a := Preferred(direction);
    if Open(t, w, h, s, x, y - 1, sinks) then Some(0)
    else if Open(t, w, h, s, x + a, y - 1, sinks) then Some(a)
    else if Open(t, w, h, s, x - a, y - 1, sinks) then Some(-a)
    else None
  }

  /** `f` applied `n` times, starting from `x`. */
  function Iterate<T>(f: T -> T, x: T, n: nat): T
    decreases n
  {
    if n == 0 then x else f(Iterate(f, x, n - 1))
  }

  /** A property P(i, .) that holds of the start for i = 0 and passes from
      any state to its successor, from i to i + 1, holds after n steps. */
  lemma {:induction false} IterateInduction<T>(f: T -> T, P: (nat, T) -> bool, x: T, n: nat)
    requires P(0, x)
    requires forall i: nat, y: T :: P(i, y) ==> P(i + 1, f(y))
    ensures P(n, Iterate(f, x, n))
  {
    if n > 0 {
      IterateInduction(f, P, x, n - 1);
    }
  }

  /** Once an iteration reaches a fixed point of `f`, it stays there. */
  lemma {:induction false} IterateSettles<T>(f: T -> T, x: T, k: nat, n: nat)
    requires k <= n && f(Iterate(f, x, k)) == Iterate(f, x, k)
    ensures Iterate(f, x, n) == Iterate(f, x, k)
    decreases n
  {
    if k < n {
      IterateSettles(f, x, k, n - 1);
    }
  }

  /** Where a moving cell is, on which grid. */
  datatype Cursor = Cursor(grid: seq<Element>, x: int, y: int)

  /** A cursor on a cell of a w x h grid. */
  predicate OnGrid(w: int, h: int, c: Cursor) {
    IsGrid(w, h, c.grid) && InBounds(w, h, c.x, c.y)
  }

  /** The cursor's cell holds material `e`. */
  predicate Holds(w: int, h: int, c: Cursor, e: Element) {
    OnGrid(w, h, c) && c.grid[Idx(w, h, c.x, c.y)] == e
  }

  /** The state of a falling cell: `blocked` once a step found all three
      cells below refusing, which ends the fall. */
  datatype Landing = Landing(at: Cursor, blocked: bool)

  /** One step of a fall: a move one row down into the cell FallTarget
      picks or, when all three refuse, the end of the fall. A fall that has
      ended stays where it is. */
  function Drop(t: Table, w: int, h: int, direction: int, sinks: bool, l: Landing): Landing {
    var c := l.at;
    if l.blocked || !OnGrid(w, h, c) then l
    else
      match FallTarget(t, w, h, c.grid, c.x, c.y, direction, sinks)
      case None => Landing(c, true)
      case Some(dx) => Landing(Cursor(Swap(c.grid, Idx(w, h, c.x, c.y), Idx(w, h, c.x + dx, c.y - 1)), c.x + dx, c.y - 1), false)
  }

  function DropStep(t: Table, w: int, h: int, direction: int, sinks: bool): Landing -> Landing {
    l => Drop(t, w, h, direction, sinks, l)
  }

  /** Up to `steps` steps of the fall of the cell at (x, y). */
  function Fall(t: Table, w: int, h: int, s: seq<Element>, x: int, y: int, steps: nat, direction: int, sinks: bool): Landing {
    Iterate(DropStep(t, w, h, direction, sinks), Landing(Cursor(s, x, y), false), steps)
  }

  /** One step of a fall keeps the cell on the grid and either moves it one
      row down and at most one column sideways or ends the fall where it is;
      a fall that has ended does not move. */
  lemma DropMoves(t: Table, w: int, h: int, direction: int, sinks: bool, l: Landing)
    requires OnGrid(w, h, l.at)
    ensures var d := Drop(t, w, h, direction, sinks, l);
            && OnGrid(w, h, d.at)
            && (l.blocked ==> d == l)
            && (!l.blocked && FallTarget(t, w, h, l.at.grid, l.at.x, l.at.y, direction, sinks) == None ==> d == Landing(l.at, true))
            && (!l.blocked && FallTarget(t, w, h, l.at.grid, l.at.x, l.at.y, direction, sinks) != None ==>
                  !d.blocked && d.at.y == l.at.y - 1 && -1 <= d.at.x - l.at.x <= 1)
  {
  }

  /** One step of a fall conserves the material. */
  lemma DropPermutes(t: Table, w: int, h: int, direction: int, sinks: bool, l: Landing)
    requires OnGrid(w, h, l.at)
    ensures multiset(Drop(t, w, h, direction, sinks, l).at.grid) == multiset(l.at.grid)
  {
    var c := l.at;
    if !l.blocked {
      match FallTarget(t, w, h, c.grid, c.x, c.y, direction, sinks)
      case None =>
      case Some(dx) =>
        var a, b := Idx(w, h, c.x, c.y), Idx(w, h, c.x + dx, c.y - 1);
        assert Drop(t, w, h, direction, sinks, l).at.grid == Swap(c.grid, a, b);
        SwapPermutes(c.grid, a, b);
    }
  }

  /** One step of a fall on a sealed grid keeps the border and the seal. */
  lemma DropSeals(t: Table, w: int, h: int, direction: int, sinks: bool, l: Landing)
    requires Moveable(t, w, h, l.at.grid, l.at.x, l.at.y) && InBounds(w, h, l.at.x, l.at.y)
    ensures var d := Drop(t, w, h, direction, sinks, l);
            Moveable(t, w, h, d.at.grid, d.at.x, d.at.y) && BorderKept(w, h, l.at.grid, d.at.grid)
  {
    var c := l.at;
    if !l.blocked {
      match FallTarget(t, w, h, c.grid, c.x, c.y, direction, sinks)
      case None =>
      case Some(dx) =>
        Step(t, w, h, c.grid, c.x, c.y, c.x + dx, c.y - 1);
    }
  }

  /** A swap of two cells in the rows lo..hi changes nothing outside them. */
  lemma SwapLocal(w: int, h: int, s: seq<Element>, x1: int, y1: int, x2: int, y2: int, lo: int, hi: int)
    requires IsGrid(w, h, s) && InBounds(w, h, x1, y1) && InBounds(w, h, x2, y2)
    requires lo <= y1 <= hi && lo <= y2 <= hi
    ensures RowsKept(w, h, s, Swap(s, Idx(w, h, x1, y1), Idx(w, h, x2, y2)), lo, hi)
  {
    var r := Swap(s, Idx(w, h, x1, y1), Idx(w, h, x2, y2));
    forall px, py | InBounds(w, h, px, py) && (py < lo || py > hi)
      ensures r[Idx(w, h, px, py)] == s[Idx(w, h, px, py)]
    {
      IdxInjective(w, h, px, py, x1, y1);
      IdxInjective(w, h, px, py, x2, y2);
    }
  }

  /** One step of a fall changes only the cell's row and the row below it. */
  lemma DropLocal(t: Table, w: int, h: int, direction: int, sinks: bool, l: Landing)
    requires OnGrid(w, h, l.at)
    ensures RowsKept(w, h, l.at.grid, Drop(t, w, h, direction, sinks, l).at.grid, l.at.y - 1, l.at.y)
  {
    var c := l.at;
    if !l.blocked {
      match FallTarget(t, w, h, c.grid, c.x, c.y, direction, sinks)
      case None =>
      case Some(dx) =>
        assert Drop(t, w, h, direction, sinks, l).at.grid == Swap(c.grid, Idx(w, h, c.x, c.y), Idx(w, h, c.x + dx, c.y - 1));
        SwapLocal(w, h, c.grid, c.x, c.y, c.x + dx, c.y - 1, c.y - 1, c.y);
    }
  }

  /** One step of a fall takes the moving material along: the cursor's cell
      holds the same material after the step as before it. */
  lemma DropCarries(t: Table, w: int, h: int, direction: int, sinks: bool, l: Landing, e: Element)
    requires Holds(w, h, l.at, e)
    ensures Holds(w, h, Drop(t, w, h, direction, sinks, l).at, e)
  {
    var c := l.at;
    if !l.blocked {
      match FallTarget(t, w, h, c.grid, c.x, c.y, direction, sinks)
      case None =>
      case Some(dx) =>
        assert Drop(t, w, h, direction, sinks, l).at == Cursor(Swap(c.grid, Idx(w, h, c.x, c.y), Idx(w, h, c.x + dx, c.y - 1)), c.x + dx, c.y - 1);
    }
  }

  /** A step of a fall from an interior cell in the terms a loop over the
      grid tests: the cell trades places with the first of Below, the
      preferred diagonal and the other diagonal that accepts it, or the fall
      ends where it is. */
  lemma DropInterior(t: Table, w: int, h: int, direction: int, sinks: bool, s: seq<Element>, x: int, y: int)
    requires IsGrid(w, h, s) && Interior(w, h, x, y)
    ensures var a, k := Preferred(direction), Idx(w, h, x, y);
            Drop(t, w, h, direction, sinks, Landing(Cursor(s, x, y), false)) ==
              if Accepts(t, s[Idx(w, h, x, y - 1)], sinks) then Landing(Cursor(Swap(s, k, Idx(w, h, x, y - 1)), x, y - 1), false)
              else if Accepts(t, s[Idx(w, h, x + a, y - 1)], sinks) then Landing(Cursor(Swap(s, k, Idx(w, h, x + a, y - 1)), x + a, y - 1), false)
              else if Accepts(t, s[Idx(w, h, x - a, y - 1)], sinks) then Landing(Cursor(Swap(s, k, Idx(w, h, x - a, y - 1)), x - a, y - 1), false)
              else Landing(Cursor(s, x, y), true)
  {
  }

  /** What a fall of the cell at (x, y) does with its steps: it moves down
      one row per step taken, drifts at most one column per row, and ends
      `blocked` exactly when it stopped before using all its steps, at a
      cell whose three cells below all refuse. */
  ghost predicate FallShape(t: Table, w: int, h: int, x: int, y: int, direction: int, sinks: bool, i: nat, l: Landing) {
    && OnGrid(w, h, l.at)
    && y - i <= l.at.y <= y && l.at.y - y <= l.at.x - x <= y - l.at.y
    && (l.blocked <==> l.at.y > y - i)
    && (l.blocked ==> FallTarget(t, w, h, l.at.grid, l.at.x, l.at.y, direction, sinks) == None)
  }

  lemma FallBounds(t: Table, w: int, h: int, s: seq<Element>, x: int, y: int, steps: nat, direction: int, sinks: bool)
    requires IsGrid(w, h, s) && InBounds(w, h, x, y)
    ensures FallShape(t, w, h, x, y, direction, sinks, steps, Fall(t, w, h, s, x, y, steps, direction, sinks))
  {
    var P := (i: nat, l: Landing) => FallShape(t, w, h, x, y, direction, sinks, i, l);
    forall i: nat, l: Landing | P(i, l)
      ensures P(i + 1, Drop(t, w, h, direction, sinks, l))
    {
      DropMoves(t, w, h, direction, sinks, l);
    }
    IterateInduction(DropStep(t, w, h, direction, sinks), P, Landing(Cursor(s, x, y), false), steps);
  }

  /** After i steps of a fall from row y the cell is between rows y - i and
      y, and no cell outside those rows has changed. */
  ghost predicate FallWithin(w: int, h: int, s: seq<Element>, y: int, i: int, l: Landing) {
    OnGrid(w, h, l.at) && y - i <= l.at.y <= y && RowsKept(w, h, s, l.at.grid, y - i, y)
  }

  /** A fall of up to `steps` steps from row y changes no cell outside the
      rows y - steps .. y. */
  lemma FallLocal(t: Table, w: int, h: int, s: seq<Element>, x: int, y: int, steps: nat, direction: int, sinks: bool)
    requires IsGrid(w, h, s) && InBounds(w, h, x, y)
    ensures RowsKept(w, h, s, Fall(t, w, h, s, x, y, steps, direction, sinks).at.grid, y - steps, y)
  {
    var P := (i: nat, l: Landing) => FallWithin(w, h, s, y, i, l);
    assert OnGrid(w, h, Cursor(s, x, y));
    forall i: nat, l: Landing | P(i, l)
      ensures P(i + 1, Drop(t, w, h, direction, sinks, l))
    {
      DropMoves(t, w, h, direction, sinks, l);
      DropLocal(t, w, h, direction, sinks, l);
      RowsKeptTransitive(w, h, s, l.at.grid, Drop(t, w, h, direction, sinks, l).at.grid, y - i, y, l.at.y - 1, l.at.y, y - (i + 1), y);
    }
    IterateInduction(DropStep(t, w, h, direction, sinks), P, Landing(Cursor(s, x, y), false), steps);
  }

  /** A fall takes the material of the cell at (x, y) along: where the fall
      ends, that material is. */
  lemma FallCarries(t: Table, w: int, h: int, s: seq<Element>, x: int, y: int, steps: nat, direction: int, sinks: bool)
    requires IsGrid(w, h, s) && InBounds(w, h, x, y)
    ensures Holds(w, h, Fall(t, w, h, s, x, y, steps, direction, sinks).at, s[Idx(w, h, x, y)])
  {
    var e := s[Idx(w, h, x, y)];
    var P := (i: nat, l: Landing) => Holds(w, h, l.at, e);
    forall i: nat, l: Landing | P(i, l)
      ensures P(i + 1, Drop(t, w, h, direction, sinks, l))
    {
      DropCarries(t, w, h, direction, sinks, l, e);
    }
    IterateInduction(DropStep(t, w, h, direction, sinks), P, Landing(Cursor(s, x, y), false), steps);
  }

  /** A cell whose `steps` cells straight below (rows y - steps .. y - 1)
      all accept it falls exactly `steps` rows straight down. */
  lemma FallStraight(t: Table, w: int, h: int, s: seq<Element>, x: int, y: int, steps: nat, direction: int, sinks: bool)
    requires IsGrid(w, h, s) && InBounds(w, h, x, y)
    requires forall j :: y - steps <= j < y ==> Open(t, w, h, s, x, j, sinks)
    ensures var l := Fall(t, w, h, s, x, y, steps, direction, sinks);
            !l.blocked && l.at.x == x && l.at.y == y - steps
  {
    var P := (i: nat, l: Landing) => i <= steps ==> !l.blocked && l.at.x == x && l.at.y == y - i && FallWithin(w, h, s, y, i, l);
    assert OnGrid(w, h, Cursor(s, x, y));
    forall i: nat, l: Landing | P(i, l)
      ensures P(i + 1, Drop(t, w, h, direction, sinks, l))
    {
      if i + 1 <= steps {
        assert Open(t, w, h, s, x, y - (i + 1), sinks);
        assert l.at.grid[Idx(w, h, x, y - (i + 1))] == s[Idx(w, h, x, y - (i + 1))];
        DropMoves(t, w, h, direction, sinks, l);
        DropLocal(t, w, h, direction, sinks, l);
        RowsKeptTransitive(w, h, s, l.at.grid, Drop(t, w, h, direction, sinks, l).at.grid, y - i, y, l.at.y - 1, l.at.y, y - (i + 1), y);
      }
    }
    IterateInduction(DropStep(t, w, h, direction, sinks), P, Landing(Cursor(s, x, y), false), steps);
  }

  function Min(a: int, b: int): int {
    if a <= b then a else b
  }

  /** The three cells below (x, y) all refuse a moving cell, so a fall from
      (x, y) ends at once whichever side is preferred. */
  predicate Resting(t: Table, w: int, h: int, s: seq<Element>, x: int, y: int, sinks: bool)
    requires IsGrid(w, h, s)
  {
    !Open(t, w, h, s, x - 1, y - 1, sinks) && !Open(t, w, h, s, x, y - 1, sinks) && !Open(t, w, h, s, x + 1, y - 1, sinks)
  }

  /** A cell rests on a grid as on any grid that agrees with it on the row
      below the cell. */
  lemma RestingKept(t: Table, w: int, h: int, s: seq<Element>, r: seq<Element>, x: int, y: int, lo: int, hi: int, sinks: bool)
    requires RowsKept(w, h, s, r, lo, hi) && y - 1 < lo && Resting(t, w, h, s, x, y, sinks)
    ensures Resting(t, w, h, r, x, y, sinks)
  {
  }

  /** A resting cell does not move: its fall leaves the grid and the cell
      where they were, and is blocked as soon as it takes a step. */
  lemma FallRests(t: Table, w: int, h: int, s: seq<Element>, x: int, y: int, steps: nat, direction: int, sinks: bool)
    requires IsGrid(w, h, s) && InBounds(w, h, x, y) && Resting(t, w, h, s, x, y, sinks)
    ensures Fall(t, w, h, s, x, y, steps, direction, sinks) == Landing(Cursor(s, x, y), steps > 0)
  {
    if steps > 0 {
      assert Fall(t, w, h, s, x, y, 1, direction, sinks) == Landing(Cursor(s, x, y), true);
      FallSettles(t, w, h, s, x, y, 1, steps, direction, sinks);
    }
  }

  /** A fall that reaches a resting cell unblocked after k steps ends
      there: every later step leaves it blocked in place. */
  lemma FallEnds(t: Table, w: int, h: int, s: seq<Element>, x: int, y: int, k: nat, n: nat, direction: int, sinks: bool)
    requires k < n
    requires var l := Fall(t, w, h, s, x, y, k, direction, sinks);
             OnGrid(w, h, l.at) && !l.blocked && Resting(t, w, h, l.at.grid, l.at.x, l.at.y, sinks)
    ensures Fall(t, w, h, s, x, y, n, direction, sinks) == Landing(Fall(t, w, h, s, x, y, k, direction, sinks).at, true)
  {
    var l := Fall(t, w, h, s, x, y, k, direction, sinks);
    assert FallTarget(t, w, h, l.at.grid, l.at.x, l.at.y, direction, sinks) == None;
    assert Fall(t, w, h, s, x, y, k + 1, direction, sinks) == Drop(t, w, h, direction, sinks, l);
    FallSettles(t, w, h, s, x, y, k + 1, n, direction, sinks);
  }

  /** A cell above a column of m cells that all accept it, the lowest of
      which rests, falls straight down min(m, steps) rows and changes no
      row outside those it fell through; the fall is blocked exactly when
      it had steps left at the bottom of the column. */
  lemma FallStops(t: Table, w: int, h: int, s: seq<Element>, x: int, y: int, m: nat, steps: nat, direction: int, sinks: bool)
    requires IsGrid(w, h, s) && InBounds(w, h, x, y)
    requires forall j :: y - m <= j < y ==> Open(t, w, h, s, x, j, sinks)
    requires Resting(t, w, h, s, x, y - m, sinks)
    ensures var l := Fall(t, w, h, s, x, y, steps, direction, sinks);
            && l.at.x == x && l.at.y == y - Min(m, steps) && (l.blocked <==> steps > m)
            && RowsKept(w, h, s, l.at.grid, y - Min(m, steps), y)
  {
    if steps <= m {
      FallStraight(t, w, h, s, x, y, steps, direction, sinks);
      FallLocal(t, w, h, s, x, y, steps, direction, sinks);
    } else {
      FallStraight(t, w, h, s, x, y, m, direction, sinks);
      FallLocal(t, w, h, s, x, y, m, direction, sinks);
      var l := Fall(t, w, h, s, x, y, m, direction, sinks);
      assert m > 0 ==> Open(t, w, h, s, x, y - m, sinks);
      RestingKept(t, w, h, s, l.at.grid, x, y - m, y - m, y, sinks);
      FallEnds(t, w, h, s, x, y, m, steps, direction, sinks);
    }
  }

  /** A fall that has ended stays where it ended, whatever steps remain. */
  lemma FallSettles(t: Table, w: int, h: int, s: seq<Element>, x: int, y: int, k: nat, n: nat, direction: int, sinks: bool)
    requires k <= n && Fall(t, w, h, s, x, y, k, direction, sinks).blocked
    ensures Fall(t, w, h, s, x, y, n, direction, sinks) == Fall(t, w, h, s, x, y, k, direction, sinks)
  {
    IterateSettles(DropStep(t, w, h, direction, sinks), Landing(Cursor(s, x, y), false), k, n);
  }

  /** The landings of the fall of the cell at (x, y) after 0, 1, ..., n
      steps: each is one Drop from the one before, and once the fall has
      ended it stays where it ended. */
  lemma FallTrace(t: Table, w: int, h: int, s: seq<Element>, x: int, y: int, n: nat, direction: int, sinks: bool) returns (tr: seq<Landing>)
    ensures |tr| == n + 1 && tr[0] == Landing(Cursor(s, x, y), false) && tr[n] == Fall(t, w, h, s, x, y, n, direction, sinks)
    ensures forall i :: 0 <= i < n ==> tr[i + 1] == Drop(t, w, h, direction, sinks, tr[i])
    ensures forall i :: 0 <= i <= n && tr[i].blocked ==> tr[n] == tr[i]
  {
    tr := seq(n + 1, i requires 0 <= i <= n => Fall(t, w, h, s, x, y, i, direction, sinks));
    forall i | 0 <= i <= n && tr[i].blocked
      ensures tr[n] == tr[i]
    {
      FallSettles(t, w, h, s, x, y, i, n, direction, sinks);
    }
  }

  /** The first cell beside (x, y), preferred side first, that is of type Empty. */
  function SpreadTarget(t: Table, w: int, h: int, s: seq<Element>, x: int, y: int, direction: int): (dx: Option<int>)
    requires IsGrid(w, h, s)
    ensures dx.Some? ==> (dx.value == 1 || dx.value == -1) && Open(t, w, h, s, x + dx.value, y, false)
    ensures dx.None? ==> !Open(t, w, h, s, x - 1, y, false) && !Open(t, w, h, s, x + 1, y, false)
    ensures Open(t, w, h, s, x + Preferred(direction), y, false) <==> dx == Some(Preferred(direction))
    ensures dx == Some(-Preferred(direction)) ==> !Open(t, w, h, s, x + Preferred(direction), y, false)
  {
    var a := Preferred(direction);
    if Open(t, w, h, s, x + a, y, false) then Some(a)
    else if Open(t, w, h, s, x - a, y, false) then Some(-a)
    else None
  }

  /** Weights and viscosities the tick uses are non-negative, so every
      countdown loop ends. */
  predicate Terminating(t: Table) {
    && WeightOf(t, Sand) >= 0
    && WeightOf(t, Water) >= 0
    && (TypeOf(t, Water) == Liquid ==> ViscosityOf(t, Water) >= 0)
  }

  /** Falling conserves every material and, for a moving cell of a sealed
      grid, keeps the border and the seal. */
  lemma FallKeeps(t: Table, w: int, h: int, s: seq<Element>, x: int, y: int, steps: nat, direction: int, sinks: bool)
    requires IsGrid(w, h, s) && InBounds(w, h, x, y)
    ensures var l := Fall(t, w, h, s, x, y, steps, direction, sinks);
            OnGrid(w, h, l.at) && multiset(l.at.grid) == multiset(s)
    ensures var l := Fall(t, w, h, s, x, y, steps, direction, sinks);
            Moveable(t, w, h, s, x, y) ==> Moveable(t, w, h, l.at.grid, l.at.x, l.at.y) && BorderKept(w, h, s, l.at.grid)
  {
    var P := (i: nat, l: Landing) =>
      && OnGrid(w, h, l.at) && multiset(l.at.grid) == multiset(s)
      && (Moveable(t, w, h, s, x, y) ==> Moveable(t, w, h, l.at.grid, l.at.x, l.at.y) && BorderKept(w, h, s, l.at.grid));
    forall i: nat, l: Landing | P(i, l)
      ensures P(i + 1, Drop(t, w, h, direction, sinks, l))
    {
      DropMoves(t, w, h, direction, sinks, l);
      DropPermutes(t, w, h, direction, sinks, l);
      if Moveable(t, w, h, s, x, y) {
        DropSeals(t, w, h, direction, sinks, l);
        KeptTransitive(w, h, s, l.at.grid, Drop(t, w, h, direction, sinks, l).at.grid);
      }
    }
    IterateInduction(DropStep(t, w, h, direction, sinks), P, Landing(Cursor(s, x, y), false), steps);
  }

  /** One sideways attempt: a move of one column into the cell SpreadTarget
      picks, or no move when both sides refuse. */
  function Shift(t: Table, w: int, h: int, direction: int, c: Cursor): Cursor {
    if !OnGrid(w, h, c) then c
    else
      match SpreadTarget(t, w, h, c.grid, c.x, c.y, direction)
      case None => c
      case Some(dx) => Cursor(Swap(c.grid, Idx(w, h, c.x, c.y), Idx(w, h, c.x + dx, c.y)), c.x + dx, c.y)
  }

  function ShiftStep(t: Table, w: int, h: int, direction: int): Cursor -> Cursor {
    c => Shift(t, w, h, direction, c)
  }

  /** Exactly `n` sideways attempts of the cell at (x, y); an attempt where
      both sides refuse does not end the run. */
  function Spread(t: Table, w: int, h: int, s: seq<Element>, x: int, y: int, n: nat, direction: int): Cursor {
    Iterate(ShiftStep(t, w, h, direction), Cursor(s, x, y), n)
  }

  /** One sideways attempt keeps the cell on the grid and in its row, moves
      it at most one column, and does not move it when both sides refuse. */
  lemma ShiftMoves(t: Table, w: int, h: int, direction: int, c: Cursor)
    requires OnGrid(w, h, c)
    ensures var d := Shift(t, w, h, direction, c);
            && OnGrid(w, h, d) && d.y == c.y && -1 <= d.x - c.x <= 1
            && (SpreadTarget(t, w, h, c.grid, c.x, c.y, direction) == None ==> d == c)
  {
  }

  /** One sideways attempt conserves the material. */
  lemma ShiftPermutes(t: Table, w: int, h: int, direction: int, c: Cursor)
    requires OnGrid(w, h, c)
    ensures multiset(Shift(t, w, h, direction, c).grid) == multiset(c.grid)
  {
    match SpreadTarget(t, w, h, c.grid, c.x, c.y, direction)
    case None =>
    case Some(dx) =>
      SwapPermutes(c.grid, Idx(w, h, c.x, c.y), Idx(w, h, c.x + dx, c.y));
  }

  /** One sideways attempt on a sealed grid keeps the border and the seal. */
  lemma ShiftSeals(t: Table, w: int, h: int, direction: int, c: Cursor)
    requires Moveable(t, w, h, c.grid, c.x, c.y) && InBounds(w, h, c.x, c.y)
    ensures var d := Shift(t, w, h, direction, c);
            Moveable(t, w, h, d.grid, d.x, d.y) && BorderKept(w, h, c.grid, d.grid)
  {
    match SpreadTarget(t, w, h, c.grid, c.x, c.y, direction)
    case None =>
    case Some(dx) =>
      Step(t, w, h, c.grid, c.x, c.y, c.x + dx, c.y);
  }

  /** A sideways attempt from an interior cell in the terms a loop over the
      grid tests: the cell trades places with the first of the preferred
      side and the other side whose type is Empty, or stays where it is. */
  lemma ShiftInterior(t: Table, w: int, h: int, direction: int, s: seq<Element>, x: int, y: int)
    requires IsGrid(w, h, s) && Interior(w, h, x, y)
    ensures var a, k := Preferred(direction), Idx(w, h, x, y);
            Shift(t, w, h, direction, Cursor(s, x, y)) ==
              if Accepts(t, s[Idx(w, h, x + a, y)], false) then Cursor(Swap(s, k, Idx(w, h, x + a, y)), x + a, y)
              else if Accepts(t, s[Idx(w, h, x - a, y)], false) then Cursor(Swap(s, k, Idx(w, h, x - a, y)), x - a, y)
              else Cursor(s, x, y)
  {
  }

  /** The cursors of a spread of the cell at (x, y) after 0, 1, ..., n
      attempts, each one Shift from the one before. */
  lemma SpreadTrace(t: Table, w: int, h: int, s: seq<Element>, x: int, y: int, n: nat, direction: int) returns (tr: seq<Cursor>)
    ensures |tr| == n + 1 && tr[0] == Cursor(s, x, y) && tr[n] == Spread(t, w, h, s, x, y, n, direction)
    ensures forall i :: 0 <= i < n ==> tr[i + 1] == Shift(t, w, h, direction, tr[i])
  {
    tr := seq(n + 1, i requires 0 <= i <= n => Spread(t, w, h, s, x, y, i, direction));
  }

  /** Spreading keeps the cell in its row and moves it at most one column
      per attempt. */
  lemma SpreadBounds(t: Table, w: int, h: int, s: seq<Element>, x: int, y: int, n: nat, direction: int)
    requires IsGrid(w, h, s) && InBounds(w, h, x, y)
    ensures var c := Spread(t, w, h, s, x, y, n, direction);
            OnGrid(w, h, c) && c.y == y && x - n <= c.x <= x + n
  {
    var P := (i: nat, d: Cursor) => OnGrid(w, h, d) && d.y == y && x - i <= d.x <= x + i;
    assert OnGrid(w, h, Cursor(s, x, y));
    forall i: nat, c: Cursor | P(i, c)
      ensures P(i + 1, Shift(t, w, h, direction, c))
    {
      ShiftMoves(t, w, h, direction, c);
    }
    IterateInduction(ShiftStep(t, w, h, direction), P, Cursor(s, x, y), n);
  }

  /** One sideways attempt changes only the cell's row. */
  lemma ShiftLocal(t: Table, w: int, h: int, direction: int, c: Cursor)
    requires OnGrid(w, h, c)
    ensures RowsKept(w, h, c.grid, Shift(t, w, h, direction, c).grid, c.y, c.y)
  {
    match SpreadTarget(t, w, h, c.grid, c.x, c.y, direction)
    case None =>
    case Some(dx) =>
      assert Shift(t, w, h, direction, c).grid == Swap(c.grid, Idx(w, h, c.x, c.y), Idx(w, h, c.x + dx, c.y));
      SwapLocal(w, h, c.grid, c.x, c.y, c.x + dx, c.y, c.y, c.y);
  }

  /** After i sideways attempts in row y the cell is still in row y and no
      cell of another row has changed. */
  ghost predicate SpreadWithin(w: int, h: int, s: seq<Element>, y: int, c: Cursor) {
    OnGrid(w, h, c) && c.y == y && RowsKept(w, h, s, c.grid, y, y)
  }

  /** A spread changes no cell outside the cell's own row. */
  lemma SpreadLocal(t: Table, w: int, h: int, s: seq<Element>, x: int, y: int, n: nat, direction: int)
    requires IsGrid(w, h, s) && InBounds(w, h, x, y)
    ensures RowsKept(w, h, s, Spread(t, w, h, s, x, y, n, direction).grid, y, y)
  {
    var P := (i: nat, c: Cursor) => SpreadWithin(w, h, s, y, c);
    assert OnGrid(w, h, Cursor(s, x, y));
    forall i: nat, c: Cursor | P(i, c)
      ensures P(i + 1, Shift(t, w, h, direction, c))
    {
      ShiftMoves(t, w, h, direction, c);
      ShiftLocal(t, w, h, direction, c);
      RowsKeptTransitive(w, h, s, c.grid, Shift(t, w, h, direction, c).grid, y, y, y, y, y, y);
    }
    IterateInduction(ShiftStep(t, w, h, direction), P, Cursor(s, x, y), n);
  }

  /** One sideways attempt takes the moving material along. */
  lemma ShiftCarries(t: Table, w: int, h: int, direction: int, c: Cursor, e: Element)
    requires Holds(w, h, c, e)
    ensures Holds(w, h, Shift(t, w, h, direction, c), e)
  {
    match SpreadTarget(t, w, h, c.grid, c.x, c.y, direction)
    case None =>
    case Some(dx) =>
      assert Shift(t, w, h, direction, c) == Cursor(Swap(c.grid, Idx(w, h, c.x, c.y), Idx(w, h, c.x + dx, c.y)), c.x + dx, c.y);
  }

  /** A spread takes the material of the cell at (x, y) along. */
  lemma SpreadCarries(t: Table, w: int, h: int, s: seq<Element>, x: int, y: int, n: nat, direction: int)
    requires IsGrid(w, h, s) && InBounds(w, h, x, y)
    ensures Holds(w, h, Spread(t, w, h, s, x, y, n, direction), s[Idx(w, h, x, y)])
  {
    var e := s[Idx(w, h, x, y)];
    var P := (i: nat, c: Cursor) => Holds(w, h, c, e);
    forall i: nat, c: Cursor | P(i, c)
      ensures P(i + 1, Shift(t, w, h, direction, c))
    {
      ShiftCarries(t, w, h, direction, c, e);
    }
    IterateInduction(ShiftStep(t, w, h, direction), P, Cursor(s, x, y), n);
  }

  /** A liquid whose both sides are blocked stays put for all its attempts. */
  lemma SpreadWhenBlocked(t: Table, w: int, h: int, s: seq<Element>, x: int, y: int, n: nat, direction: int)
    requires IsGrid(w, h, s) && InBounds(w, h, x, y)
    requires SpreadTarget(t, w, h, s, x, y, direction) == None
    ensures Spread(t, w, h, s, x, y, n, direction) == Cursor(s, x, y)
  {
    IterateSettles(ShiftStep(t, w, h, direction), Cursor(s, x, y), 0, n);
  }

  /** After i of a spread's attempts toward side `a`: the cell has moved i
      columns that way, and every cell it has yet to enter, up to the n-th,
      still accepts it. */
  ghost predicate SpreadAhead(t: Table, w: int, h: int, x: int, y: int, a: int, n: nat, i: nat, c: Cursor) {
    i <= n ==>
      && OnGrid(w, h, c) && c.y == y && c.x == x + i * a
      && forall j :: i < j <= n ==> Open(t, w, h, c.grid, x + j * a, y, false)
  }

  /** A liquid with n open cells in a row on its preferred side uses each of
      its n attempts to move one column that way. */
  lemma SpreadStraight(t: Table, w: int, h: int, s: seq<Element>, x: int, y: int, n: nat, direction: int)
    requires IsGrid(w, h, s) && InBounds(w, h, x, y)
    requires forall j :: 1 <= j <= n ==> Open(t, w, h, s, x + j * Preferred(direction), y, false)
    ensures var c := Spread(t, w, h, s, x, y, n, direction);
            c.x == x + n * Preferred(direction) && c.y == y
  {
    var a := Preferred(direction);
    var P := (i: nat, c: Cursor) => SpreadAhead(t, w, h, x, y, a, n, i, c);
    assert OnGrid(w, h, Cursor(s, x, y));
    forall i: nat, c: Cursor | P(i, c)
      ensures P(i + 1, Shift(t, w, h, direction, c))
    {
      if i + 1 <= n {
        ShiftAhead(t, w, h, x, y, n, i, direction, c);
      }
    }
    IterateInduction(ShiftStep(t, w, h, direction), P, Cursor(s, x, y), n);
  }

  /** One attempt of SpreadStraight: the next cell ahead accepts the cell,
      and the swap leaves the cells beyond it untouched. */
  lemma ShiftAhead(t: Table, w: int, h: int, x: int, y: int, n: nat, i: nat, direction: int, c: Cursor)
    requires i + 1 <= n && SpreadAhead(t, w, h, x, y, Preferred(direction), n, i, c)
    ensures SpreadAhead(t, w, h, x, y, Preferred(direction), n, i + 1, Shift(t, w, h, direction, c))
  {
    var a := Preferred(direction);
    var x1 := x + (i + 1) * a;
    assert x1 == c.x + a;
    assert Open(t, w, h, c.grid, x1, y, false);
    var k0, k1 := Idx(w, h, c.x, y), Idx(w, h, x1, y);
    var d := Shift(t, w, h, direction, c);
    assert d == Cursor(Swap(c.grid, k0, k1), x1, y);
    forall j | i + 1 < j <= n
      ensures Open(t, w, h, d.grid, x + j * a, y, false)
    {
      var xj := x + j * a;
      assert Open(t, w, h, c.grid, xj, y, false);
      assert xj != c.x && xj != x1 by {
        if a == 1 { } else { }
      }
      IdxInjective(w, h, xj, y, c.x, y);
      IdxInjective(w, h, xj, y, x1, y);
    }
  }

  /** Spreading conserves every material and, for a moving cell of a sealed
      grid, keeps the border and the seal. */
  lemma SpreadKeeps(t: Table, w: int, h: int, s: seq<Element>, x: int, y: int, n: nat, direction: int)
    requires IsGrid(w, h, s) && InBounds(w, h, x, y)
    ensures var c := Spread(t, w, h, s, x, y, n, direction);
            multiset(c.grid) == multiset(s)
    ensures var c := Spread(t, w, h, s, x, y, n, direction);
            Moveable(t, w, h, s, x, y) ==> Moveable(t, w, h, c.grid, c.x, c.y) && BorderKept(w, h, s, c.grid)
  {
    var P := (i: nat, c: Cursor) =>
      && OnGrid(w, h, c) && multiset(c.grid) == multiset(s)
      && (Moveable(t, w, h, s, x, y) ==> Moveable(t, w, h, c.grid, c.x, c.y) && BorderKept(w, h, s, c.grid));
    forall i: nat, c: Cursor | P(i, c)
      ensures P(i + 1, Shift(t, w, h, direction, c))
    {
      ShiftMoves(t, w, h, direction, c);
      ShiftPermutes(t, w, h, direction, c);
      if Moveable(t, w, h, s, x, y) {
        ShiftSeals(t, w, h, direction, c);
        KeptTransitive(w, h, s, c.grid, Shift(t, w, h, direction, c).grid);
      }
    }
    IterateInduction(ShiftStep(t, w, h, direction), P, Cursor(s, x, y), n);
  }

  /** Gravity for material `e`: falling into Empty cells only and, if the
      fall was blocked and `e` is a liquid, spreading sideways afterwards. */
  function Gravity(t: Table, w: int, h: int, s: seq<Element>, x: int, y: int, e: Element, direction: int): Cursor
    requires WeightOf(t, e) >= 0 && (TypeOf(t, e) == Liquid ==> ViscosityOf(t, e) >= 0)
  {
    var l := Fall(t, w, h, s, x, y, WeightOf(t, e), direction, false);
    if l.blocked && TypeOf(t, e) == Liquid then
      Spread(t, w, h, l.at.grid, l.at.x, l.at.y, ViscosityOf(t, e), direction)
    else
      l.at
  }

  /** Under gravity a cell never rises, falls at most its weight in rows, and
      drifts sideways at most one column per row fallen plus, for a liquid,
      its viscosity. */
  lemma GravityBounds(t: Table, w: int, h: int, s: seq<Element>, x: int, y: int, e: Element, direction: int)
    requires IsGrid(w, h, s) && InBounds(w, h, x, y)
    requires WeightOf(t, e) >= 0 && (TypeOf(t, e) == Liquid ==> ViscosityOf(t, e) >= 0)
    ensures var c := Gravity(t, w, h, s, x, y, e, direction);
            && OnGrid(w, h, c) && y - WeightOf(t, e) <= c.y <= y
            && Abs(c.x - x) <= (y - c.y) + (if TypeOf(t, e) == Liquid then ViscosityOf(t, e) else 0)
  {
    FallBounds(t, w, h, s, x, y, WeightOf(t, e), direction, false);
    var l := Fall(t, w, h, s, x, y, WeightOf(t, e), direction, false);
    if l.blocked && TypeOf(t, e) == Liquid {
      SpreadBounds(t, w, h, l.at.grid, l.at.x, l.at.y, ViscosityOf(t, e), direction);
    }
  }

  /** Gravity conserves every material and, for a moving cell of a sealed
      grid, keeps the border and the seal. */
  lemma GravityKeeps(t: Table, w: int, h: int, s: seq<Element>, x: int, y: int, e: Element, direction: int)
    requires IsGrid(w, h, s) && InBounds(w, h, x, y)
    requires WeightOf(t, e) >= 0 && (TypeOf(t, e) == Liquid ==> ViscosityOf(t, e) >= 0)
    ensures var c := Gravity(t, w, h, s, x, y, e, direction);
            multiset(c.grid) == multiset(s)
    ensures var c := Gravity(t, w, h, s, x, y, e, direction);
            Moveable(t, w, h, s, x, y) ==> Moveable(t, w, h, c.grid, c.x, c.y) && BorderKept(w, h, s, c.grid)
  {
    FallKeeps(t, w, h, s, x, y, WeightOf(t, e), direction, false);
    var l := Fall(t, w, h, s, x, y, WeightOf(t, e), direction, false);
    if l.blocked && TypeOf(t, e) == Liquid {
      SpreadKeeps(t, w, h, l.at.grid, l.at.x, l.at.y, ViscosityOf(t, e), direction);
      if Moveable(t, w, h, s, x, y) {
        KeptTransitive(w, h, s, l.at.grid, Spread(t, w, h, l.at.grid, l.at.x, l.at.y, ViscosityOf(t, e), direction).grid);
      }
    }
  }

  /** Gravity changes no cell outside the rows the cell fell through. */
  lemma GravityLocal(t: Table, w: int, h: int, s: seq<Element>, x: int, y: int, e: Element, direction: int)
    requires IsGrid(w, h, s) && InBounds(w, h, x, y)
    requires WeightOf(t, e) >= 0 && (TypeOf(t, e) == Liquid ==> ViscosityOf(t, e) >= 0)
    ensures RowsKept(w, h, s, Gravity(t, w, h, s, x, y, e, direction).grid, y - WeightOf(t, e), y)
  {
    var n := WeightOf(t, e);
    FallLocal(t, w, h, s, x, y, n, direction, false);
    FallBounds(t, w, h, s, x, y, n, direction, false);
    var l := Fall(t, w, h, s, x, y, n, direction, false);
    if l.blocked && TypeOf(t, e) == Liquid {
      SpreadLocal(t, w, h, l.at.grid, l.at.x, l.at.y, ViscosityOf(t, e), direction);
      RowsKeptTransitive(w, h, s, l.at.grid, Spread(t, w, h, l.at.grid, l.at.x, l.at.y, ViscosityOf(t, e), direction).grid,
                         y - n, y, l.at.y, l.at.y, y - n, y);
    }
  }

  /** A liquid that cannot fall (its fall is blocked at once) and has as many
      Empty cells on its preferred side as its viscosity moves that many
      columns sideways in its row. */
  lemma GravitySpreads(t: Table, w: int, h: int, s: seq<Element>, x: int, y: int, e: Element, direction: int)
    requires IsGrid(w, h, s) && InBounds(w, h, x, y) && Resting(t, w, h, s, x, y, false)
    requires TypeOf(t, e) == Liquid && WeightOf(t, e) >= 1 && ViscosityOf(t, e) >= 0
    requires forall j :: 1 <= j <= ViscosityOf(t, e) ==> Open(t, w, h, s, x + j * Preferred(direction), y, false)
    ensures var c := Gravity(t, w, h, s, x, y, e, direction);
            c.x == x + ViscosityOf(t, e) * Preferred(direction) && c.y == y
  {
    FallRests(t, w, h, s, x, y, WeightOf(t, e), direction, false);
    SpreadStraight(t, w, h, s, x, y, ViscosityOf(t, e), direction);
  }

  /** Gravity takes the material of the cell at (x, y) along: the position
      it ends at, whose dirty flag the grid clears, holds that material. */
  lemma GravityCarries(t: Table, w: int, h: int, s: seq<Element>, x: int, y: int, e: Element, direction: int)
    requires IsGrid(w, h, s) && InBounds(w, h, x, y)
    requires WeightOf(t, e) >= 0 && (TypeOf(t, e) == Liquid ==> ViscosityOf(t, e) >= 0)
    ensures Holds(w, h, Gravity(t, w, h, s, x, y, e, direction), s[Idx(w, h, x, y)])
  {
    FallCarries(t, w, h, s, x, y, WeightOf(t, e), direction, false);
    var l := Fall(t, w, h, s, x, y, WeightOf(t, e), direction, false);
    if l.blocked && TypeOf(t, e) == Liquid {
      SpreadCarries(t, w, h, l.at.grid, l.at.x, l.at.y, ViscosityOf(t, e), direction);
    }
  }

  /** The scan's action at flat index i: Sand falls as powder, Water falls
      as a liquid under gravity, every other material is left alone. */
  function Visit(t: Table, w: int, h: int, s: seq<Element>, i: int, direction: int): (r: seq<Element>)
    requires Terminating(t) && IsGrid(w, h, s) && 0 <= i < |s|
    ensures IsGrid(w, h, r)
  {
    if s[i] == Sand || s[i] == Water then
      IdxOfCoords(w, h, i);
      var x, y := Col(w, i), Row(w, i);
      if s[i] == Sand then
        FallBounds(t, w, h, s, x, y, WeightOf(t, Sand), direction, true);
        Fall(t, w, h, s, x, y, WeightOf(t, Sand), direction, true).at.grid
      else
        GravityBounds(t, w, h, s, x, y, Water, direction);
        Gravity(t, w, h, s, x, y, Water, direction).grid
    else
      s
  }

  /** A visit conserves every material and keeps a sealed grid's border. */
  lemma VisitKeeps(t: Table, w: int, h: int, s: seq<Element>, i: int, direction: int)
    requires Terminating(t) && IsGrid(w, h, s) && 0 <= i < |s|
    ensures multiset(Visit(t, w, h, s, i, direction)) == multiset(s)
    ensures BorderIsWall(t, w, h, s) ==>
              BorderIsWall(t, w, h, Visit(t, w, h, s, i, direction)) && BorderKept(w, h, s, Visit(t, w, h, s, i, direction))
  {
    if s[i] == Sand || s[i] == Water {
      IdxOfCoords(w, h, i);
      var x, y := Col(w, i), Row(w, i);
      if BorderIsWall(t, w, h, s) {
        MoverIsInterior(t, w, h, s, i);
      }
      if s[i] == Sand {
        FallKeeps(t, w, h, s, x, y, WeightOf(t, Sand), direction, true);
      } else {
        GravityKeeps(t, w, h, s, x, y, Water, direction);
      }
    }
  }

  /** The grid after visiting the flat indices 0 .. i-1 in ascending order,
      each visit seeing the grid the earlier ones left. */
  function Scan(t: Table, w: int, h: int, s: seq<Element>, i: int, direction: int): (r: seq<Element>)
    requires Terminating(t) && IsGrid(w, h, s) && 0 <= i <= |s|
    ensures IsGrid(w, h, r)
    decreases i
  {
    if i == 0 then s
    else Visit(t, w, h, Scan(t, w, h, s, i - 1, direction), i - 1, direction)
  }

  /** The scan conserves every material and keeps a sealed grid's border. */
  lemma {:induction false} ScanKeeps(t: Table, w: int, h: int, s: seq<Element>, i: int, direction: int)
    requires Terminating(t) && IsGrid(w, h, s) && 0 <= i <= |s|
    ensures multiset(Scan(t, w, h, s, i, direction)) == multiset(s)
    ensures BorderIsWall(t, w, h, s) ==>
              BorderIsWall(t, w, h, Scan(t, w, h, s, i, direction)) && BorderKept(w, h, s, Scan(t, w, h, s, i, direction))
    decreases i
  {
    if i > 0 {
      ScanKeeps(t, w, h, s, i - 1, direction);
      var m := Scan(t, w, h, s, i - 1, direction);
      VisitKeeps(t, w, h, m, i - 1, direction);
      if BorderIsWall(t, w, h, s) {
        KeptTransitive(w, h, s, m, Visit(t, w, h, m, i - 1, direction));
      }
    }
  }

  /** One tick: every index visited once with one shared direction. */
  function Tick(t: Table, w: int, h: int, s: seq<Element>, direction: int): (r: seq<Element>)
    requires Terminating(t) && IsGrid(w, h, s)
    ensures IsGrid(w, h, r)
  {
    Scan(t, w, h, s, |s|, direction)
  }

  /** A tick conserves every material: the grid after it is a permutation
      of the grid before it. On a sealed grid it also leaves every border
      cell as it was, so the grid stays sealed for the next tick. */
  lemma TickKeeps(t: Table, w: int, h: int, s: seq<Element>, direction: int)
    requires Terminating(t) && IsGrid(w, h, s)
    ensures multiset(Tick(t, w, h, s, direction)) == multiset(s)
    ensures BorderIsWall(t, w, h, s) ==>
              BorderIsWall(t, w, h, Tick(t, w, h, s, direction)) && BorderKept(w, h, s, Tick(t, w, h, s, direction))
  {
    ScanKeeps(t, w, h, s, |s|, direction);
  }

  /** A grid holding neither Sand nor Water is a fixed point of the scan:
      the tick acts only on those two materials. */
  lemma {:induction false} InertScan(t: Table, w: int, h: int, s: seq<Element>, i: int, direction: int)
    requires Terminating(t) && IsGrid(w, h, s) && 0 <= i <= |s|
    requires forall k :: 0 <= k < |s| ==> s[k] != Sand && s[k] != Water
    ensures Scan(t, w, h, s, i, direction) == s
  {
    if i > 0 {
      InertScan(t, w, h, s, i - 1, direction);
    }
  }
}
