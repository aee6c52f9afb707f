/** The two ways material is put into the grid without moving it: the
    initial layout drawn by the grid's constructor, and the circular brush. */
module Fill {
  import opened Materials
  import opened Geometry
  import opened Rules

  /** The material the constructor draws at (x, y): Bedrock on the border,
      a Sand column at x == w/2, Air elsewhere. */
  function InitialAt(w: int, h: int, x: int, y: int): Element {
    if OnBorder(w, h, x, y) then Bedrock
    else if x == w / 2 then Sand
    else Air
  }

  /** The constructor's grid, as a row-major sequence. */
  function InitialGrid(w: int, h: int): (g: seq<Element>)
    requires 0 <= w && 0 <= h
    ensures |g| == Cells(w, h)
  {
    seq(Cells(w, h), k requires 0 <= k < Cells(w, h) => InitialAt(w, h, Col(w, k), Row(w, k)))
  }

  /** Each cell of the initial grid holds the material drawn at its coordinates. */
  lemma InitialGridAt(w: int, h: int, x: int, y: int)
    requires InBounds(w, h, x, y)
    ensures InitialGrid(w, h)[Idx(w, h, x, y)] == InitialAt(w, h, x, y)
    ensures OnBorder(w, h, x, y) ==> InitialGrid(w, h)[Idx(w, h, x, y)] == Bedrock
    ensures !OnBorder(w, h, x, y) && x == w / 2 ==> InitialGrid(w, h)[Idx(w, h, x, y)] == Sand
    ensures !OnBorder(w, h, x, y) && x != w / 2 ==> InitialGrid(w, h)[Idx(w, h, x, y)] == Air
  {
    CoordsOfIdx(w, h, x, y);
  }

  /** A fresh grid is sealed when Bedrock is a wall, so a tick may run on it. */
  lemma InitialGridIsSealed(t: Table, w: int, h: int)
    requires 0 <= w && 0 <= h && IsWall(t, Bedrock)
    ensures BorderIsWall(t, w, h, InitialGrid(w, h))
  {
    forall x, y | InBounds(w, h, x, y) && OnBorder(w, h, x, y)
      ensures IsWall(t, InitialGrid(w, h)[Idx(w, h, x, y)])
    {
      InitialGridAt(w, h, x, y);
    }
  }

  /** Whether the offset (i, j) from the brush centre is painted: inside the
      square the brush loops over and within squared distance radius^2. */
  predicate InBrush(i: int, j: int, radius: int) {
    -radius <= i <= radius && -radius <= j <= radius && i * i + j * j <= radius * radius
  }

  /** The grid after painting `e` with a brush of `radius` centred at (cx, cy):
      only Air cells under the brush change, and they become `e`. */
  function Painted(w: int, h: int, s: seq<Element>, cx: int, cy: int, radius: int, e: Element): (r: seq<Element>)
    requires 0 <= w && 0 <= h && |s| == Cells(w, h)
    ensures |r| == |s|
    ensures forall k :: 0 <= k < |s| && s[k] != Air ==> r[k] == s[k]
    ensures forall k :: 0 <= k < |s| && r[k] != s[k] ==> r[k] == e
  {
    seq(|s|, k requires 0 <= k < |s| =>
      if s[k] == Air && InBrush(Col(w, k) - cx, Row(w, k) - cy, radius) then e else s[k])
  }

  /** The painted value of the in-bounds cell (x, y), in coordinates. */
  lemma PaintedAt(w: int, h: int, s: seq<Element>, cx: int, cy: int, radius: int, e: Element, x: int, y: int)
    requires 0 <= w && 0 <= h && |s| == Cells(w, h) && InBounds(w, h, x, y)
    ensures Painted(w, h, s, cx, cy, radius, e)[Idx(w, h, x, y)] ==
            if s[Idx(w, h, x, y)] == Air && InBrush(x - cx, y - cy, radius) then e else s[Idx(w, h, x, y)]
  {
    CoordsOfIdx(w, h, x, y);
  }

  /** Painting twice with the same brush is the same as painting once. */
  lemma PaintTwice(w: int, h: int, s: seq<Element>, cx: int, cy: int, radius: int, e: Element)
    requires 0 <= w && 0 <= h && |s| == Cells(w, h)
    ensures Painted(w, h, Painted(w, h, s, cx, cy, radius, e), cx, cy, radius, e) == Painted(w, h, s, cx, cy, radius, e)
  {
  }

  /** The brush never breaks the seal: border walls are never Air when Air
      is not itself a wall, so they are never painted over. */
  lemma PaintKeepsSeal(t: Table, w: int, h: int, s: seq<Element>, cx: int, cy: int, radius: int, e: Element)
    requires BorderIsWall(t, w, h, s) && !IsWall(t, Air)
    ensures BorderIsWall(t, w, h, Painted(w, h, s, cx, cy, radius, e))
    ensures BorderKept(w, h, s, Painted(w, h, s, cx, cy, radius, e))
  {
  }
}
