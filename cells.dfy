/** The grid as a value: rows of 16-bit cells indexed `[y][x]`, coordinates
    `(x, y)`, the cell operations both grid implementations share, and the fixed
    table of the eight neighbour directions. The two grid classes keep their
    array contents equal to one of these values and state each operation in
    its terms. */
module Cells {
  import opened Js

  /** `[x, y]` */
  type Coord = (int, int)

  /** `grid[y][x]` */
  type Rows = seq<seq<bv16>>

  /** `height` rows of `width` cells. */
  predicate Shape(g: Rows, width: nat, height: nat) {
    |g| == height && forall y :: 0 <= y < height ==> |g[y]| == width
  }

  /** The `inBounds` test: `0 <= x < width` and `0 <= y < height`. */
  predicate Inside(width: int, height: int, c: Coord) {
    0 <= c.0 < width && 0 <= c.1 < height
  }

  function At(g: Rows, c: Coord): bv16
    requires 0 <= c.1 < |g| && 0 <= c.0 < |g[c.1]|
  {
    g[c.1][c.0]
  }

  /** `height` rows of `width` zero cells, as a fresh `Uint16Array` holds. */
  function Empty(width: nat, height: nat): (g: Rows)
    ensures Shape(g, width, height)
    ensures forall c :: Inside(width, height, c) ==> At(g, c) == 0
  {
    seq(height, _ => seq(width, _ => 0))
  }

  /** The grid with cell `c` set to `v` and every other cell as it was. */
  function Put(g: Rows, width: nat, height: nat, c: Coord, v: bv16): (r: Rows)
    requires Shape(g, width, height) && Inside(width, height, c)
    ensures Shape(r, width, height)
    ensures At(r, c) == v
    ensures forall d :: Inside(width, height, d) && d != c ==> At(r, d) == At(g, d)
  {
    g[c.1 := g[c.1][c.0 := v]]
  }

  /** The two cells exchanged: the source takes the target's value, then the
      target takes the source's old value; every other cell is as it was. */
  function Swap(g: Rows, width: nat, height: nat, source: Coord, target: Coord): (r: Rows)
    requires Shape(g, width, height)
    requires Inside(width, height, source) && Inside(width, height, target)
    ensures Shape(r, width, height)
    ensures At(r, source) == At(g, target) && At(r, target) == At(g, source)
    ensures forall d :: Inside(width, height, d) && d != source && d != target ==>
              At(r, d) == At(g, d)
  {
    Put(Put(g, width, height, source, At(g, target)), width, height, target, At(g, source))
  }

  const NW := 0
  const N := 1
  const NE := 2
  const E := 3
  const SE := 4
  const S := 5
  const SW := 6
  const W := 7

  /** The offsets of the eight neighbours, in the fixed order NW, N, NE, E, SE,
      S, SW, W; y grows downwards. */
  const DIRECTIONS: seq<Coord> :=
    [(-1, -1), (0, -1), (1, -1), (1, 0), (1, 1), (0, 1), (-1, 1), (-1, 0)]

  /** `[coords[0] + vec[0], coords[1] + vec[1]]` */
  function Add(c: Coord, vec: Coord): Coord {
    (c.0 + vec.0, c.1 + vec.1)
  }

  /** `add(coords, vec)`: throws unless both arguments are arrays, otherwise the
      componentwise sum. */
  function CheckedAdd(coords: Arg<Coord>, vec: Arg<Coord>): (r: Option<Coord>)
    ensures r.None? <==> coords.NotArray? || vec.NotArray?
    ensures r.Some? ==>
              r.value.0 == coords.elems.0 + vec.elems.0 && r.value.1 == coords.elems.1 + vec.elems.1
  {
    if coords.NotArray? || vec.NotArray? then None else Some(Add(coords.elems, vec.elems))
  }

  /** Adding a vector and then its negation gives the coordinate back. */
  lemma AddThenSubtract(c: Coord, vec: Coord)
    ensures var moved := CheckedAdd(IsArray(c), IsArray(vec));
      moved.Some? && CheckedAdd(IsArray(moved.value), IsArray((-vec.0, -vec.1))) == Some(c)
  {
  }

  /** Opposite directions: slot `i` and slot `(i + 4) % 8` of the direction
      table cancel out. */
  lemma OppositeDirections(i: nat)
    requires i < |DIRECTIONS|
    ensures Add(DIRECTIONS[i], DIRECTIONS[(i + 4) % 8]) == (0, 0)
  {
  }

  /** Slot `i` of `neighborCoords(c)`: the coordinate in direction `i`, or null
      when it lies off the grid. */
  function NeighborCoordAt(width: nat, height: nat, c: Coord, i: nat): (r: Option<Coord>)
    requires i < |DIRECTIONS|
    ensures r.Some? <==> Inside(width, height, Add(c, DIRECTIONS[i]))
    ensures r.Some? ==> r.value == Add(c, DIRECTIONS[i])
  {
    var d := Add(c, DIRECTIONS[i]);
    if Inside(width, height, d) then Some(d) else None
  }

  /** The neighbour relation is symmetric: when `d` is the neighbour of an
      in-bounds `c` in direction `i`, then `c` is the neighbour of `d` in the
      opposite direction. */
  lemma NeighborSymmetric(width: nat, height: nat, c: Coord, i: nat)
    requires Inside(width, height, c) && i < |DIRECTIONS|
    requires NeighborCoordAt(width, height, c, i).Some?
    ensures var d := NeighborCoordAt(width, height, c, i).value;
      NeighborCoordAt(width, height, d, (i + 4) % 8) == Some(c)
  {
    OppositeDirections(i);
  }

  /** Slot `i` of `neighbors(c)`: the cell in direction `i`, or null when it lies
      off the grid. */
  function NeighborCellAt(g: Rows, width: nat, height: nat, c: Coord, i: nat): (r: Option<bv16>)
    requires Shape(g, width, height) && i < |DIRECTIONS|
    ensures r.Some? <==> Inside(width, height, Add(c, DIRECTIONS[i]))
    ensures r.Some? ==> r.value == At(g, Add(c, DIRECTIONS[i]))
  {
    var d := Add(c, DIRECTIONS[i]);
    if Inside(width, height, d) then Some(At(g, d)) else None
  }

  /** All eight slots of `neighborCoords(c)`. */
  function NeighborCoordSlots(width: nat, height: nat, c: Coord): (r: seq<Option<Coord>>)
    ensures |r| == |DIRECTIONS|
    ensures forall i :: 0 <= i < |DIRECTIONS| ==> r[i] == NeighborCoordAt(width, height, c, i)
  {
    seq(|DIRECTIONS|, i requires 0 <= i < |DIRECTIONS| => NeighborCoordAt(width, height, c, i))
  }

  /** All eight slots of `neighbors(c)`. */
  function NeighborCellSlots(g: Rows, width: nat, height: nat, c: Coord): (r: seq<Option<bv16>>)
    requires Shape(g, width, height)
    ensures |r| == |DIRECTIONS|
    ensures forall i :: 0 <= i < |DIRECTIONS| ==> r[i] == NeighborCellAt(g, width, height, c, i)
  {
    seq(|DIRECTIONS|, i requires 0 <= i < |DIRECTIONS| => NeighborCellAt(g, width, height, c, i))
  }
}
