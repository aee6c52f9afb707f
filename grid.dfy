/** The grid engine: a dense width x height buffer of materials updated in
    place, with a parallel buffer of per-cell "dirty" flags. Each method is
    proved to compute what the functions of modules Rules and Fill say. */
module Grid {
  import opened Materials
  import opened Geometry
  import opened Rules
  import opened Fill

  newtype uint8 = n: int | 0 <= n < 256

  class AutomataMatrix {
    const width: int
    const height: int
    /** Row-major materials: cell (x, y) is at y * width + x, row 0 at the bottom. */
    const cell: array<Element>
    /** 1 = not yet settled this tick, 0 = settled; written, never read by a rule. */
    const dirty: array<uint8>

    ghost predicate Valid() {
      0 <= width && 0 <= height && cell.Length == Cells(width, height) && dirty.Length == Cells(width, height)
    }

    /** A flat index whose cell is off the border, so all eight neighbours exist. */
    ghost predicate InteriorIndex(pos: int) {
      width > 0 && 0 <= height && 0 <= pos < Cells(width, height) && Interior(width, height, Col(width, pos), Row(width, pos))
    }

    /** Draws a Bedrock border, a Sand column at x == width/2 and Air elsewhere;
        every dirty flag starts at 1. The default size is 400 x 300. */
    constructor (width: int := 400, height: int := 300)
      requires 0 <= width && 0 <= height
      ensures this.width == width && this.height == height && Valid()
      ensures fresh(cell) && fresh(dirty)
      ensures cell[..] == InitialGrid(width, height)
      ensures forall k :: 0 <= k < dirty.Length ==> dirty[k] == 1
    {
      CellsIsProduct(width, height);
      var c := new Element[width * height](_ => Air);
      var d := new uint8[width * height](_ => 0);
      var y := 0;
      while y < height
        invariant 0 <= y <= height
        invariant forall cx, cy :: InBounds(width, height, cx, cy) && cy < y ==>
                    c[Idx(width, height, cx, cy)] == InitialAt(width, height, cx, cy) && d[Idx(width, height, cx, cy)] == 1
      {
        var x := 0;
        while x < width
          invariant 0 <= x <= width
          invariant forall cx, cy :: InBounds(width, height, cx, cy) && (cy < y || (cy == y && cx < x)) ==>
                      c[Idx(width, height, cx, cy)] == InitialAt(width, height, cx, cy) && d[Idx(width, height, cx, cy)] == 1
        {
          var k := Idx(width, height, x, y);
          if x == 0 || x == width - 1 || y == 0 || y == height - 1 {
            c[k] := Bedrock;
          } else if x == width / 2 {
            c[k] := Sand;
          } else {
            c[k] := Air;
          }
          d[k] := 1;
          forall cx, cy | InBounds(width, height, cx, cy) && (cy < y || (cy == y && cx <= x))
            ensures c[Idx(width, height, cx, cy)] == InitialAt(width, height, cx, cy) && d[Idx(width, height, cx, cy)] == 1
          {
            IdxInjective(width, height, cx, cy, x, y);
          }
          x := x + 1;
        }
        y := y + 1;
      }
      forall k | 0 <= k < Cells(width, height)
        ensures c[k] == InitialGrid(width, height)[k] && d[k] == 1
      {
        IdxOfCoords(width, height, k);
      }
      this.width, this.height := width, height;
      cell, dirty := c, d;
    }

    function Above(pos: int): int { pos + width }
    function Below(pos: int): int { pos - width }
    function Right(pos: int): int { pos + 1 }
    function Left(pos: int): int { pos - 1 }
    function AboveRight(pos: int): int { pos + width + 1 }
    function AboveLeft(pos: int): int { pos + width - 1 }
    function BelowRight(pos: int): int { pos - width + 1 }
    function BelowLeft(pos: int): int { pos - width - 1 }

    /** The neighbour helpers step one cell in the named direction, row 0
        being the bottom: Above is y + 1, Right is x + 1. */
    lemma NeighbourCoords(x: int, y: int)
      requires Valid() && Interior(width, height, x, y)
      ensures Above(Idx(width, height, x, y)) == Idx(width, height, x, y + 1)
      ensures Below(Idx(width, height, x, y)) == Idx(width, height, x, y - 1)
      ensures Right(Idx(width, height, x, y)) == Idx(width, height, x + 1, y)
      ensures Left(Idx(width, height, x, y)) == Idx(width, height, x - 1, y)
      ensures AboveRight(Idx(width, height, x, y)) == Idx(width, height, x + 1, y + 1)
      ensures AboveLeft(Idx(width, height, x, y)) == Idx(width, height, x - 1, y + 1)
      ensures BelowRight(Idx(width, height, x, y)) == Idx(width, height, x + 1, y - 1)
      ensures BelowLeft(Idx(width, height, x, y)) == Idx(width, height, x - 1, y - 1)
    {
    }

    /** The three cells a falling cell looks at, in coordinates. */
    lemma BelowCoords(x: int, y: int)
      requires Valid() && Interior(width, height, x, y)
      ensures Below(Idx(width, height, x, y)) == Idx(width, height, x, y - 1)
      ensures BelowRight(Idx(width, height, x, y)) == Idx(width, height, x + 1, y - 1)
      ensures BelowLeft(Idx(width, height, x, y)) == Idx(width, height, x - 1, y - 1)
    {
    }

    /** The two cells a spreading cell looks at, in coordinates. */
    lemma SideCoords(x: int, y: int)
      requires Valid() && Interior(width, height, x, y)
      ensures Right(Idx(width, height, x, y)) == Idx(width, height, x + 1, y)
      ensures Left(Idx(width, height, x, y)) == Idx(width, height, x - 1, y)
    {
    }

    function GetCell(pos: int): Element
      requires Valid() && 0 <= pos < cell.Length
      reads cell
    {
      cell[pos]
    }

    /** The coordinate form reads the same cell as the flat form. */
    function GetCellAt(x: int, y: int): (e: Element)
      requires Valid() && InBounds(width, height, x, y)
      reads cell
      ensures e == GetCell(Idx(width, height, x, y))
    {
      cell[Idx(width, height, x, y)]
    }

    method SetCell(pos: int, element: Element)
      requires Valid() && 0 <= pos < cell.Length
      modifies cell
      ensures cell[..] == old(cell[..])[pos := element]
    {
      cell[pos] := element;
    }

    method SetCellAt(x: int, y: int, element: Element)
      requires Valid() && InBounds(width, height, x, y)
      modifies cell
      ensures cell[..] == old(cell[..])[Idx(width, height, x, y) := element]
    {
      cell[Idx(width, height, x, y)] := element;
    }

    method SwapCells(pos1: int, pos2: int)
      requires Valid() && 0 <= pos1 < cell.Length && 0 <= pos2 < cell.Length
      modifies cell
      ensures cell[..] == Swap(old(cell[..]), pos1, pos2)
    {
      cell[pos1], cell[pos2] := cell[pos2], cell[pos1];
    }

    method SwapCellsAt(x1: int, y1: int, x2: int, y2: int)
      requires Valid() && InBounds(width, height, x1, y1) && InBounds(width, height, x2, y2)
      modifies cell
      ensures cell[..] == Swap(old(cell[..]), Idx(width, height, x1, y1), Idx(width, height, x2, y2))
    {
      var a, b := Idx(width, height, x1, y1), Idx(width, height, x2, y2);
      cell[a], cell[b] := cell[b], cell[a];
    }

    /** Paints `element` into the Air cells of the disc of `radius` around
        (x, y), row by row of the square the brush covers. */
    method SetCircle(x: int, y: int, radius: int, element: Element)
      requires Valid()
      modifies cell
      ensures cell[..] == Painted(width, height, old(cell[..]), x, y, radius, element)
    {
      ghost var s0 := cell[..];
      var i := -radius;
      while i <= radius
        invariant -radius <= i && (radius >= 0 ==> i <= radius + 1)
        invariant forall cx, cy :: InBounds(width, height, cx, cy) ==>
                    cell[Idx(width, height, cx, cy)] == Brushed(s0, x, y, radius, element, cx, cy, cx - x < i)
      {
        var j := -radius;
        while j <= radius
          invariant -radius <= j <= radius + 1
          invariant forall cx, cy :: InBounds(width, height, cx, cy) ==>
                      cell[Idx(width, height, cx, cy)] == Brushed(s0, x, y, radius, element, cx, cy, Before(cx - x, cy - y, i, j))
        {
          var newX, newY := x + i, y + j;
          if i * i + j * j <= radius * radius {
            if newX >= 0 && newX < width && newY >= 0 && newY < height {
              if GetCellAt(newX, newY) == Air {
                SetCellAt(newX, newY, element);
              }
            }
          }
          forall cx, cy | InBounds(width, height, cx, cy)
            ensures cell[Idx(width, height, cx, cy)] == Brushed(s0, x, y, radius, element, cx, cy, Before(cx - x, cy - y, i, j + 1))
          {
            if InBounds(width, height, newX, newY) {
              IdxInjective(width, height, cx, cy, newX, newY);
            }
          }
          j := j + 1;
        }
        i := i + 1;
      }
      forall k | 0 <= k < cell.Length
        ensures cell[k] == Painted(width, height, s0, x, y, radius, element)[k]
      {
        IdxOfCoords(width, height, k);
        PaintedAt(width, height, s0, x, y, radius, element, Col(width, k), Row(width, k));
      }
    }

    /** The value of (cx, cy) once the brush has (`reached`) or has not yet
        passed over it. */
    ghost function Brushed(s0: seq<Element>, x: int, y: int, radius: int, element: Element, cx: int, cy: int, reached: bool): Element
      requires Valid() && |s0| == cell.Length && InBounds(width, height, cx, cy)
    {
      if reached && s0[Idx(width, height, cx, cy)] == Air && InBrush(cx - x, cy - y, radius) then element
      else s0[Idx(width, height, cx, cy)]
    }

    /** One step of a fall of the cell at `p`, which is (x, y): it trades
        places with the first of Below, the preferred diagonal and the other
        diagonal that accepts it (Empty type, or also Liquid type when the
        cell `sinks`), or reports `blocked` when all three refuse. */
    method Descend(table: Table, p: int, direction: int, sinks: bool, ghost x: int, ghost y: int) returns (q: int, blocked: bool)
      requires Valid() && Interior(width, height, x, y) && p == Idx(width, height, x, y)
      modifies cell
      ensures var l := Drop(table, width, height, direction, sinks, Landing(Cursor(old(cell[..]), x, y), false));
              OnGrid(width, height, l.at) && cell[..] == l.at.grid && blocked == l.blocked && q == Idx(width, height, l.at.x, l.at.y)
    {
      DropInterior(table, width, height, direction, sinks, cell[..], x, y);
      BelowCoords(x, y);
      var below := Below(p);
      var directionA := if direction != 0 then BelowRight(p) else BelowLeft(p);
      var directionB := if direction != 0 then BelowLeft(p) else BelowRight(p);
      q, blocked := p, false;
      if Accepts(table, cell[below], sinks) {
        SwapCells(p, below);
        q := below;
      } else if Accepts(table, cell[directionA], sinks) {
        SwapCells(p, directionA);
        q := directionA;
      } else if Accepts(table, cell[directionB], sinks) {
        SwapCells(p, directionB);
        q := directionB;
      } else {
        blocked := true;
      }
    }

    /** Up to the element's weight moves of the cell at `pos` into the first
        Empty- or Liquid-type cell of Below, the preferred diagonal and the
        other diagonal; stops at the first step where all three refuse. The
        cell where it stops is marked settled. */
    method UpdatePowder(table: Table, pos: int, element: Element, direction: int)
      requires Valid() && BorderIsWall(table, width, height, cell[..]) && InteriorIndex(pos)
      requires WeightOf(table, element) >= 0
      modifies cell, dirty
      ensures var l := Fall(table, width, height, old(cell[..]), Col(width, pos), Row(width, pos), WeightOf(table, element), direction, true);
              OnGrid(width, height, l.at) && cell[..] == l.at.grid && dirty[..] == old(dirty[..])[Idx(width, height, l.at.x, l.at.y) := 0]
    {
      IdxOfCoords(width, height, pos);
      ghost var n: nat := WeightOf(table, element);
      ghost var tr := FallTrace(table, width, height, cell[..], Col(width, pos), Row(width, pos), n, direction, true);
      ghost var c, i: nat := tr[0].at, 0;
      var p := pos;
      var weight := WeightOf(table, element);
      while weight != 0
        invariant 0 <= weight && i + weight == n
        invariant tr[i] == Landing(c, false) && cell[..] == c.grid
        invariant Moveable(table, width, height, c.grid, c.x, c.y) && p == Idx(width, height, c.x, c.y)
        invariant dirty[..] == old(dirty[..])
      {
        weight := weight - 1;
        DropSeals(table, width, height, direction, true, tr[i]);
        var blocked;
        p, blocked := Descend(table, p, direction, true, c.x, c.y);
        c, i := tr[i + 1].at, i + 1;
        if blocked {
          break;
        }
      }
      assert tr[n].at == c;
      FallBounds(table, width, height, old(cell[..]), Col(width, pos), Row(width, pos), n, direction, true);
      dirty[p] := 0;
    }

    /** One sideways attempt of the cell at `p`, which is (x, y): it trades
        places with the first of the preferred side and the other side whose
        type is Empty, or stays where it is. */
    method Slide(table: Table, p: int, direction: int, ghost x: int, ghost y: int) returns (q: int)
      requires Valid() && Interior(width, height, x, y) && p == Idx(width, height, x, y)
      modifies cell
      ensures var c := Shift(table, width, height, direction, Cursor(old(cell[..]), x, y));
              OnGrid(width, height, c) && cell[..] == c.grid && q == Idx(width, height, c.x, c.y)
    {
      ShiftInterior(table, width, height, direction, cell[..], x, y);
      SideCoords(x, y);
      var directionA := if direction != 0 then Right(p) else Left(p);
      var directionB := if direction != 0 then Left(p) else Right(p);
      q := p;
      if Accepts(table, cell[directionA], false) {
        SwapCells(p, directionA);
        q := directionA;
      } else if Accepts(table, cell[directionB], false) {
        SwapCells(p, directionB);
        q := directionB;
      }
    }

    /** Exactly `spread` sideways attempts of the cell at `pos`; an attempt
        where both sides refuse does not end the run. Returns where the cell
        ends up (the source updates its position argument in place). */
    method ApplySpread(table: Table, pos: int, spread: int, direction: int) returns (newPos: int)
      requires Valid() && BorderIsWall(table, width, height, cell[..]) && InteriorIndex(pos)
      requires spread >= 0
      modifies cell
      ensures var c := Spread(table, width, height, old(cell[..]), Col(width, pos), Row(width, pos), spread, direction);
              OnGrid(width, height, c) && cell[..] == c.grid && newPos == Idx(width, height, c.x, c.y)
    {
      IdxOfCoords(width, height, pos);
      ghost var tr := SpreadTrace(table, width, height, cell[..], Col(width, pos), Row(width, pos), spread, direction);
      ghost var i: nat := 0;
      newPos := pos;
      var remaining := spread;
      while remaining != 0
        invariant 0 <= remaining && i + remaining == spread
        invariant cell[..] == tr[i].grid
        invariant Moveable(table, width, height, tr[i].grid, tr[i].x, tr[i].y) && newPos == Idx(width, height, tr[i].x, tr[i].y)
      {
        remaining := remaining - 1;
        ShiftSeals(table, width, height, direction, tr[i]);
        newPos := Slide(table, newPos, direction, tr[i].x, tr[i].y);
        i := i + 1;
      }
    }

    /** Up to the element's weight moves of the cell at `pos` into the first
        Empty-type cell of Below, the preferred diagonal and the other
        diagonal; at the first step where all three refuse, a liquid spreads
        sideways for its viscosity's worth of attempts, and the fall ends.
        The cell where it ends up is marked settled. */
    method ApplyGravity(table: Table, pos: int, element: Element, direction: int)
      requires Valid() && BorderIsWall(table, width, height, cell[..]) && InteriorIndex(pos)
      requires WeightOf(table, element) >= 0 && (TypeOf(table, element) == Liquid ==> ViscosityOf(table, element) >= 0)
      modifies cell, dirty
      ensures var c := Gravity(table, width, height, old(cell[..]), Col(width, pos), Row(width, pos), element, direction);
              OnGrid(width, height, c) && cell[..] == c.grid && dirty[..] == old(dirty[..])[Idx(width, height, c.x, c.y) := 0]
    {
      IdxOfCoords(width, height, pos);
      ghost var n: nat := WeightOf(table, element);
      ghost var tr := FallTrace(table, width, height, cell[..], Col(width, pos), Row(width, pos), n, direction, false);
      ghost var c, i: nat := tr[0].at, 0;
      var kind := TypeOf(table, element);
      var weight := WeightOf(table, element);
      var spread := ViscosityOf(table, element);
      var p := pos;
      while weight != 0
        invariant 0 <= weight && i + weight == n
        invariant tr[i] == Landing(c, false) && cell[..] == c.grid
        invariant Moveable(table, width, height, c.grid, c.x, c.y) && p == Idx(width, height, c.x, c.y)
        invariant dirty[..] == old(dirty[..])
      {
        weight := weight - 1;
        DropSeals(table, width, height, direction, false, tr[i]);
        var blocked;
        p, blocked := Descend(table, p, direction, false, c.x, c.y);
        c, i := tr[i + 1].at, i + 1;
        if blocked {
          if kind == Liquid {
            CoordsOfIdx(width, height, c.x, c.y);
            SpreadBounds(table, width, height, c.grid, c.x, c.y, spread, direction);
            c := Spread(table, width, height, c.grid, c.x, c.y, spread, direction);
            p := ApplySpread(table, p, spread, direction);
          }
          break;
        }
      }
      dirty[p] := 0;
    }

    /** One tick: the cells are visited in ascending flat index, Sand falling
        as powder and Water under gravity, each visit seeing the grid the
        earlier ones left; then every dirty flag is reset to 1. `direction`
        is the one random draw of the tick. */
    method Update(table: Table, direction: int)
      requires Valid() && Terminating(table) && BorderIsWall(table, width, height, cell[..])
      modifies cell, dirty
      ensures cell[..] == Tick(table, width, height, old(cell[..]), direction)
      ensures forall k :: 0 <= k < dirty.Length ==> dirty[k] == 1
    {
      CellsIsProduct(width, height);
      var i := 0;
      while i < width * height
        invariant 0 <= i <= cell.Length
        invariant cell[..] == Scan(table, width, height, old(cell[..]), i, direction)
        invariant BorderIsWall(table, width, height, cell[..])
      {
        VisitKeeps(table, width, height, cell[..], i, direction);
        if cell[i] == Sand {
          MoverIsInterior(table, width, height, cell[..], i);
          UpdatePowder(table, i, Sand, direction);
        } else if cell[i] == Water {
          MoverIsInterior(table, width, height, cell[..], i);
          ApplyGravity(table, i, Water, direction);
        }
        i := i + 1;
      }
      forall k | 0 <= k < dirty.Length {
        dirty[k] := 1;
      }
    }

    /** Lexicographic order of brush offsets: (a, b) is painted before (i, j). */
    static predicate Before(a: int, b: int, i: int, j: int) {
      a < i || (a == i && b < j)
    }
  }
}
