/** The simulation in `client/client.js`: a second cell codec with four fields
    laid out as `TTTT TTTT EEEE PPPU` (type, temperature, pressure, updated),
    a second copy of the grid primitives, the density rule `canSwap`, the
    water tile's update rule, and one tick of the simulation (the brush stroke
    and the sweep over the grid). */
module Client {
  import opened Js
  import opened Cells

  const DATA_TYPE := 0
  const DATA_TEMP := 1
  const DATA_PRESSURE := 2
  const DATA_UPDATED := 3

  const TILE_NONE: bv32 := 0
  const TILE_BLOCK: bv32 := 1
  const TILE_WATER: bv32 := 2
  const TILE_OIL: bv32 := 3

  /** `vals[i]` as the shift operators see it: an element the array does not
      have is `undefined`, which they treat as 0. */
  function Elem(vals: seq<bv32>, i: nat): bv32 {
    if i < |vals| then vals[i] else 0
  }

  /** Field values that fit their bit widths: 8 bits of type, 4 of
      temperature, 3 of pressure and 1 updated bit. */
  predicate InRange(vals: seq<bv32>) {
    && |vals| == 4
    && vals[DATA_TYPE] < 256 && vals[DATA_TEMP] < 16
    && vals[DATA_PRESSURE] < 8 && vals[DATA_UPDATED] < 2
  }

  /** `pack(vals)`: throws (None) unless given an array. Fields in range pack
      into a value that fits a 16-bit cell and unpacks to the same fields. */
  function Pack(vals: Arg<seq<bv32>>): (r: Option<bv32>)
    ensures r.None? <==> vals.NotArray?
    ensures vals.IsArray? && InRange(vals.elems) ==>
              r.Some? && r.value < 0x1_0000 && Unpacked(r.value) == vals.elems
  {
    match vals
    case NotArray => None
    case IsArray(v) =>
      Some((Elem(v, 0) << 8) | (Elem(v, 1) << 4) | (Elem(v, 2) << 1) | Elem(v, 3))
  }

  /** The four fields `unpack` reads out of `packed`. */
  function Unpacked(packed: bv32): (r: seq<bv32>)
    ensures |r| == 4
    ensures r[DATA_TEMP] <= 15 && r[DATA_PRESSURE] <= 7 && r[DATA_UPDATED] <= 1
  {
    [ShiftRight8(packed), (packed >> 4) & 0xf, (packed >> 1) & 7, packed & 1]
  }

  /** Every 16-bit cell is the packing of its own fields. */
  lemma PackUnpack(packed: bv32)
    requires packed < 0x1_0000
    ensures InRange(Unpacked(packed))
    ensures Pack(IsArray(Unpacked(packed))) == Some(packed)
  {
  }

  /** `unpack(packed, out)`: writes the four fields into `out[0..3]`, records
      the raw value as `out.packedValue`, and returns `out`. */
  method Unpack(packed: bv32, out: OutArray<bv32>) returns (r: OutArray<bv32>)
    modifies out
    ensures r == out
    ensures out.elems == Overwrite(old(out.elems), Unpacked(packed))
    ensures out.packedValue == Some(packed)
  {
    var fields := Unpacked(packed);
    var i := 0;
    while i < 4
      invariant 0 <= i <= 4
      invariant out.elems == Overwrite(old(out.elems), fields[..i])
    {
      OverwriteOneMore(old(out.elems), fields, i);
      out.elems := SetAt(out.elems, i, fields[i]);
      i := i + 1;
    }
    assert fields[..4] == fields;
    out.packedValue := Some(packed);
    r := out;
  }

  /** The fields of a grid cell. */
  function Fields(cell: bv16): seq<bv32> {
    Unpacked(Widen(cell))
  }

  function TypeOf(cell: bv16): bv32 {
    Fields(cell)[DATA_TYPE]
  }

  /** The type of a 16-bit cell is its high byte. */
  lemma TypeOfHighByte(cell: bv16)
    ensures TypeOf(cell) == Widen(cell) >> 8
    ensures TypeOf(cell) < 256
  {
    assert Widen(cell) & SIGN_BIT == 0;
  }

  // Tiles. Only their densities are compared, so a density is an exact
  // rational in tenths, or Infinity.

  datatype Density = Finite(tenths: nat) | Infinite

  /** `a < b` on the densities. */
  predicate Lighter(a: Density, b: Density) {
    a.Finite? && (b.Infinite? || a.tenths < b.tenths)
  }

  /** The types that have an entry in `tiles`. */
  predicate KnownTile(t: bv32) {
    t == TILE_BLOCK || t == TILE_WATER || t == TILE_OIL
  }

  /** `tiles[t].density`: Infinity for blocks, 1.0 for water, 0.8 for oil. */
  function DensityOf(t: bv32): (r: Density)
    requires KnownTile(t)
    ensures r.Infinite? <==> t == TILE_BLOCK
    ensures r.Finite? ==> r.tenths <= 10
  {
    if t == TILE_BLOCK then Infinite
    else if t == TILE_WATER then Finite(10)
    else Finite(8)
  }

  /** `tiles[t].fixed`: only blocks are fixed. */
  predicate Fixed(t: bv32)
    requires KnownTile(t)
    ensures Fixed(t) <==> DensityOf(t).Infinite?
  {
    t == TILE_BLOCK
  }

  /** A cell whose type is empty or has an entry in `tiles`: its high byte
      is at most 3. */
  predicate KnownCell(cell: bv16) {
    cell < 0x400
  }

  lemma KnownCellType(cell: bv16)
    ensures KnownCell(cell) <==> TypeOf(cell) <= TILE_OIL
  {
    TypeOfHighByte(cell);
  }

  /** Every cell of the grid is known, so every `tiles[...]` lookup the
      simulation makes succeeds. */
  ghost predicate WellTyped(g: Rows, width: nat, height: nat)
    requires Shape(g, width, height)
  {
    forall c :: Inside(width, height, c) ==> KnownCell(At(g, c))
  }

  /** What `canSwap(source, target)` needs to avoid a failed `tiles` lookup:
      the source, when on the grid, is a tile; the target, when on the grid, is
      empty or a tile. */
  ghost predicate CanSwapDefined(g: Rows, width: nat, height: nat, source: Coord, target: Coord)
    requires Shape(g, width, height)
  {
    Inside(width, height, source) && Inside(width, height, target) ==>
      KnownTile(TypeOf(At(g, source)))
      && (TypeOf(At(g, target)) == TILE_NONE || KnownTile(TypeOf(At(g, target))))
  }

  /** `canSwap(source, target)`: false when either coordinate is off the grid;
      otherwise true exactly when the target is empty or strictly lighter than
      the source. */
  function CanSwapSpec(g: Rows, width: nat, height: nat, source: Coord, target: Coord): (r: bool)
    requires Shape(g, width, height) && CanSwapDefined(g, width, height, source, target)
    ensures r <==>
              && Inside(width, height, source) && Inside(width, height, target)
              && (|| TypeOf(At(g, target)) == TILE_NONE
                  || Lighter(DensityOf(TypeOf(At(g, target))), DensityOf(TypeOf(At(g, source)))))
  {
    if !Inside(width, height, source) || !Inside(width, height, target) then false
    else
      var t := TypeOf(At(g, target));
      t == TILE_NONE || Lighter(DensityOf(t), DensityOf(TypeOf(At(g, source))))
  }

  /** Nothing displaces a block. */
  lemma BlockNeverDisplaced(g: Rows, width: nat, height: nat, source: Coord, target: Coord)
    requires Shape(g, width, height) && CanSwapDefined(g, width, height, source, target)
    requires Inside(width, height, target) && TypeOf(At(g, target)) == TILE_BLOCK
    ensures !CanSwapSpec(g, width, height, source, target)
  {
  }

  /** Two tiles never displace each other: the density order is strict. */
  lemma CanSwapAsymmetric(g: Rows, width: nat, height: nat, a: Coord, b: Coord)
    requires Shape(g, width, height) && Inside(width, height, a) && Inside(width, height, b)
    requires KnownTile(TypeOf(At(g, a))) && KnownTile(TypeOf(At(g, b)))
    requires CanSwapSpec(g, width, height, a, b)
    ensures !CanSwapSpec(g, width, height, b, a)
  {
  }

  /** Water sinks into empty cells and below oil, and into nothing else. */
  lemma WaterDisplaces(g: Rows, width: nat, height: nat, source: Coord, target: Coord)
    requires Shape(g, width, height) && Inside(width, height, source) && Inside(width, height, target)
    requires TypeOf(At(g, source)) == TILE_WATER && TypeOf(At(g, target)) <= TILE_OIL
    ensures CanSwapSpec(g, width, height, source, target) <==>
              TypeOf(At(g, target)) == TILE_NONE || TypeOf(At(g, target)) == TILE_OIL
  {
  }

  /** The grid of `client/client.js`: the same storage as `GridStore.Grid`,
      with a plain `swap`. */
  class Grid {
    const width: nat
    const height: nat
    const data: array2<bv16>
    ghost var Contents: Rows

    ghost predicate Valid()
      reads this, data
    {
      && data.Length0 == height && data.Length1 == width
      && Shape(Contents, width, height)
      && forall y, x :: 0 <= y < height && 0 <= x < width ==> data[y, x] == Contents[y][x]
    }

    /** The grid allocation, taken as `height` rows of `width` zero cells. */
    constructor (width: nat, height: nat)
      ensures Valid() && fresh(data)
      ensures this.width == width && this.height == height
      ensures Contents == Empty(width, height)
    {
      this.width := width;
      this.height := height;
      data := new bv16[height, width]((y, x) => 0);
      Contents := Empty(width, height);
    }

    /** `peek(coords)` */
    method Peek(c: Coord) returns (v: bv16)
      requires Valid() && Inside(width, height, c)
      ensures v == At(Contents, c)
    {
      v := data[c.1, c.0];
    }

    /** `this[y][x] = v` for a value that already fits the cell. */
    method Store(c: Coord, v: bv16)
      requires Valid() && Inside(width, height, c)
      modifies this, data
      ensures Valid()
      ensures Contents == Cells.Put(old(Contents), width, height, c, v)
    {
      data[c.1, c.0] := v;
      Contents := Cells.Put(Contents, width, height, c, v);
    }

    /** `put(coords, value)`: the cell holds `value` modulo 2^16 afterwards. */
    method Put(c: Coord, value: bv32)
      requires Valid() && Inside(width, height, c)
      modifies this, data
      ensures Valid()
      ensures Contents == Cells.Put(old(Contents), width, height, c, ToUint16(value))
    {
      Store(c, ToUint16(value));
    }

    /** `clear(coords)` */
    method Clear(c: Coord)
      requires Valid() && Inside(width, height, c)
      modifies this, data
      ensures Valid()
      ensures Contents == Cells.Put(old(Contents), width, height, c, 0)
    {
      Store(c, 0);
    }

    /** `swap(source, target)`: a plain exchange. */
    method Swap(source: Coord, target: Coord)
      requires Valid() && Inside(width, height, source) && Inside(width, height, target)
      modifies this, data
      ensures Valid()
      ensures Contents == Cells.Swap(old(Contents), width, height, source, target)
    {
      var tmp := Peek(source);
      var moved := Peek(target);
      Store(source, moved);
      Store(target, tmp);
    }

    /** `inBounds(coords)` */
    method InBounds(c: Coord) returns (b: bool)
      ensures b <==> 0 <= c.0 < width && 0 <= c.1 < height
    {
      b := c.0 >= 0 && c.0 < width && c.1 >= 0 && c.1 < height;
    }

    /** `add(coords, vec)`: throws unless both arguments are arrays. */
    method Add(coords: Arg<Coord>, vec: Arg<Coord>) returns (r: Option<Coord>)
      ensures r == CheckedAdd(coords, vec)
    {
      if coords.NotArray? || vec.NotArray? {
        return None;
      }
      r := Some((coords.elems.0 + vec.elems.0, coords.elems.1 + vec.elems.1));
    }

    /** `neighbors(coords)`: a new array of the eight neighbour cells, null
        where a neighbour lies off the grid. */
    method Neighbors(c: Coord) returns (r: seq<Option<bv16>>)
      requires Valid()
      ensures r == NeighborCellSlots(Contents, width, height, c)
    {
      r := [];
      var i := 0;
      while i < |DIRECTIONS|
        invariant 0 <= i <= |DIRECTIONS|
        invariant r == NeighborCellSlots(Contents, width, height, c)[..i]
      {
        var cell := NeighborCell(c, i);
        r := r + [cell];
        i := i + 1;
      }
    }

    /** Slot `i` of `neighbors(coords)`: the cell in direction `i`, or null. */
    method NeighborCell(c: Coord, i: nat) returns (r: Option<bv16>)
      requires Valid() && i < |DIRECTIONS|
      ensures r == NeighborCellAt(Contents, width, height, c, i)
    {
      var d := Cells.Add(c, DIRECTIONS[i]);
      var inside := InBounds(d);
      if inside {
        var v := Peek(d);
        r := Some(v);
      } else {
        r := None;
      }
    }

    /** `canSwap(source, target)` */
    method CanSwap(source: Coord, target: Coord) returns (b: bool)
      requires Valid() && CanSwapDefined(Contents, width, height, source, target)
      ensures b == CanSwapSpec(Contents, width, height, source, target)
    {
      var sourceInside := InBounds(source);
      var targetInside := InBounds(target);
      if !sourceInside || !targetInside {
        return false;
      }
      var sv := Peek(source);
      var tv := Peek(target);
      var s := Fields(sv);
      var t := Fields(tv);
      b := t[DATA_TYPE] == TILE_NONE || Lighter(DensityOf(t[DATA_TYPE]), DensityOf(s[DATA_TYPE]));
    }

    /** `flipUpdated(coords)` */
    method FlipUpdated(c: Coord)
      requires Valid() && Inside(width, height, c)
      modifies this, data
      ensures Valid()
      ensures Contents == Cells.Put(old(Contents), width, height, c, At(old(Contents), c) ^ 1)
    {
      var v := Peek(c);
      FlipStored(v);
      Put(c, Widen(v) ^ 1);
    }

    /** The loop `for (i ...) if (canSwap(coords, target)) { flipUpdated(coords);
        swap(coords, target); return; }` of the water rule over the directions
        `dirs`: moves into the first direction `canSwap` admits, if any. */
    method MoveFirstFree(c: Coord, dirs: seq<nat>) returns (moved: bool)
      requires Valid() && WaterAt(Contents, width, height, c) && Directions(dirs)
      modifies this, data
      ensures Valid()
      ensures moved <==> FirstFree(old(Contents), width, height, c, dirs, 0).Some?
      ensures moved ==>
                Contents == Moved(old(Contents), width, height, c,
                                  Target(c, dirs[FirstFree(old(Contents), width, height, c, dirs, 0).value]))
      ensures !moved ==> Contents == old(Contents)
    {
      ghost var g := Contents;
      var i := 0;
      moved := false;
      while i < |dirs|
        invariant 0 <= i <= |dirs|
        invariant Contents == g && Valid()
        invariant FirstFree(g, width, height, c, dirs, i) == FirstFree(g, width, height, c, dirs, 0)
      {
        var sum := Add(IsArray(c), IsArray(DIRECTIONS[dirs[i]]));
        var target := sum.value;
        WaterCanSwapDefined(g, width, height, c, target);
        var free := CanSwap(c, target);
        if free {
          FlipUpdated(c);
          Swap(c, target);
          moved := true;
          break;
        }
        i := i + 1;
      }
    }

    /** `tiles[TILE_WATER].update(coords, tile, neighbors, grid)` at tick
        `tick`, where `tile` holds the cell's fields and `neighbors` its eight
        neighbour slots, both read just before the call. */
    method WaterUpdate(c: Coord, tile: seq<bv32>, neighbors: seq<Option<bv16>>, tick: nat)
      requires Valid() && WaterAt(Contents, width, height, c)
      requires tile == Fields(At(Contents, c))
      requires neighbors == NeighborCellSlots(Contents, width, height, c)
      modifies this, data
      ensures Valid()
      ensures Contents == WaterStep(old(Contents), width, height, tick, c)
    {
      ghost var g := Contents;
      var ds := [S, TOGGLE_DIRS[2 + tick % 2], TOGGLE_DIRS[2 + (tick + 1) % 2]];
      assert ds == FallOrder(tick);
      var fell := MoveFirstFree(c, ds);
      if !fell && neighbors[N].Some? {
        var above := Fields(neighbors[N].value);
        var slid := false;
        if above[DATA_TYPE] == TILE_WATER {
          slid := MoveFirstFree(c, [TOGGLE_DIRS[0], TOGGLE_DIRS[1]]);
          if !slid {
            var packed := Pack(IsArray(tile[DATA_PRESSURE := NextPressure(above[DATA_PRESSURE])]));
            Put(c, packed.value);
          }
        }
        if !slid && neighbors[S].None? {
          Clear(c);
        }
      }
    }
  }

  /** Toggling bit 0 through the 32-bit view stores the toggled cell. */
  lemma FlipStored(v: bv16)
    ensures ToUint16(Widen(v) ^ 1) == v ^ 1
  {
  }

  /** Toggling bit 0 of a cell changes its updated field and no other. */
  lemma FlipFields(cell: bv16)
    ensures Fields(cell ^ 1) == Fields(cell)[DATA_UPDATED := Fields(cell)[DATA_UPDATED] ^ 1]
  {
    var v := Widen(cell);
    assert Widen(cell ^ 1) == v ^ 1;
    assert v & SIGN_BIT == 0 && (v ^ 1) & SIGN_BIT == 0;
    assert (v ^ 1) >> 8 == v >> 8;
    assert ((v ^ 1) >> 4) & 0xf == (v >> 4) & 0xf;
    assert ((v ^ 1) >> 1) & 7 == (v >> 1) & 7;
    assert (v ^ 1) & 1 == (v & 1) ^ 1;
  }

  /** A value below 2^16 survives the store into a cell. */
  lemma StoreNarrow(value: bv32)
    requires value < 0x1_0000
    ensures Widen(ToUint16(value)) == value
  {
  }

  /** The cell `pack(fields)` stores, for fields in range. */
  function PackedCell(fields: seq<bv32>): (r: bv16)
    requires InRange(fields)
    ensures Fields(r) == fields
  {
    var packed := Pack(IsArray(fields)).value;
    StoreNarrow(packed);
    ToUint16(packed)
  }

  /** `Math.min(7, above + 1)` for the pressure of the water above. */
  function NextPressure(above: bv32): (r: bv32)
    requires above <= 7
    ensures r <= 7
    ensures r as int == if above as int + 1 < 7 then above as int + 1 else 7
  {
    if above + 1 < 7 then above + 1 else 7
  }

  /** The water cell after `tile[DATA_PRESSURE] = Math.min(7, above + 1)` and
      `put(coords, pack(tile))`: its own fields with the pressure replaced. */
  function Pressurized(cell: bv16, above: bv16): (r: bv16)
    ensures Fields(r) == Fields(cell)[DATA_PRESSURE := NextPressure(Fields(above)[DATA_PRESSURE])]
  {
    TypeOfHighByte(cell);
    PackedCell(Fields(cell)[DATA_PRESSURE := NextPressure(Fields(above)[DATA_PRESSURE])])
  }

  // The water tile's update rule, as a function of the grid before the call.

  /** `toggleDirs` */
  const TOGGLE_DIRS: seq<nat> := [W, E, SW, SE]

  /** The directions water tries to fall in, in order. */
  function FallOrder(tick: nat): seq<nat> {
    [S, TOGGLE_DIRS[2 + tick % 2], TOGGLE_DIRS[2 + (tick + 1) % 2]]
  }

  /** The directions water tries when it cannot fall and water is above it. */
  const LATERAL: seq<nat> := [TOGGLE_DIRS[0], TOGGLE_DIRS[1]]

  /** Water tries straight down first, then the two diagonals, south-west first
      on even ticks and south-east first on odd ones. */
  lemma FallOrderAlternates(tick: nat)
    ensures FallOrder(tick) == if tick % 2 == 0 then [S, SW, SE] else [S, SE, SW]
  {
  }

  /** Sideways means west, then east. */
  lemma LateralOrder()
    ensures LATERAL == [W, E]
  {
  }

  predicate Directions(dirs: seq<nat>) {
    forall i :: 0 <= i < |dirs| ==> dirs[i] < |DIRECTIONS|
  }

  /** The cell at `c` is water, on a grid every `tiles` lookup succeeds on. */
  ghost predicate WaterAt(g: Rows, width: nat, height: nat, c: Coord) {
    && Shape(g, width, height) && WellTyped(g, width, height)
    && Inside(width, height, c) && TypeOf(At(g, c)) == TILE_WATER
  }

  /** `add(coords, dirs[d])` */
  function Target(c: Coord, d: nat): Coord
    requires d < |DIRECTIONS|
  {
    Add(c, DIRECTIONS[d])
  }

  /** The water rule's `grid.add(coords, dirs[d])` is given two arrays, so it
      never throws and its sum is `Target(c, d)`. */
  lemma TargetIsAdd(c: Coord, d: nat)
    requires d < |DIRECTIONS|
    ensures CheckedAdd(IsArray(c), IsArray(DIRECTIONS[d])) == Some(Target(c, d))
  {
  }

  /** Water at `c` may move in direction `d`. */
  ghost predicate Free(g: Rows, width: nat, height: nat, c: Coord, d: nat)
    requires WaterAt(g, width, height, c) && d < |DIRECTIONS|
  {
    WaterCanSwapDefined(g, width, height, c, Target(c, d));
    CanSwapSpec(g, width, height, c, Target(c, d))
  }

  lemma WaterCanSwapDefined(g: Rows, width: nat, height: nat, c: Coord, target: Coord)
    requires WaterAt(g, width, height, c)
    ensures CanSwapDefined(g, width, height, c, target)
  {
    if Inside(width, height, target) {
      KnownCellType(At(g, target));
    }
  }

  /** The first index from `i` on whose direction the water may move in. */
  ghost function FirstFree(g: Rows, width: nat, height: nat, c: Coord, dirs: seq<nat>, i: nat): (r: Option<nat>)
    requires WaterAt(g, width, height, c) && Directions(dirs) && i <= |dirs|
    decreases |dirs| - i
    ensures r.Some? ==>
              && i <= r.value < |dirs| && Free(g, width, height, c, dirs[r.value])
              && forall k :: i <= k < r.value ==> !Free(g, width, height, c, dirs[k])
    ensures r.None? ==> forall k :: i <= k < |dirs| ==> !Free(g, width, height, c, dirs[k])
  {
    if i == |dirs| then None
    else if Free(g, width, height, c, dirs[i]) then Some(i)
    else FirstFree(g, width, height, c, dirs, i + 1)
  }

  /** `flipUpdated(coords)` followed by `swap(coords, target)`. */
  function Moved(g: Rows, width: nat, height: nat, c: Coord, target: Coord): (r: Rows)
    requires Shape(g, width, height) && Inside(width, height, c) && Inside(width, height, target)
    ensures Shape(r, width, height)
  {
    Cells.Swap(Cells.Put(g, width, height, c, At(g, c) ^ 1), width, height, c, target)
  }

  /** The grid after `tiles[TILE_WATER].update(c, ...)` at tick `tick`. */
  ghost function WaterStep(g: Rows, width: nat, height: nat, tick: nat, c: Coord): (r: Rows)
    requires WaterAt(g, width, height, c)
    ensures Shape(r, width, height)
  {
    var fall := FirstFree(g, width, height, c, FallOrder(tick), 0);
    if fall.Some? then Moved(g, width, height, c, Target(c, FallOrder(tick)[fall.value]))
    else if !Inside(width, height, Target(c, N)) then g
    else
      var above := At(g, Target(c, N));
      var side := FirstFree(g, width, height, c, LATERAL, 0);
      if TypeOf(above) == TILE_WATER && side.Some? then
        Moved(g, width, height, c, Target(c, LATERAL[side.value]))
      else
        var settled := if TypeOf(above) == TILE_WATER
                       then Cells.Put(g, width, height, c, Pressurized(At(g, c), above))
                       else g;
        if Inside(width, height, Target(c, S)) then settled
        else Cells.Put(settled, width, height, c, 0)
  }

  /** Storing a known cell keeps the grid well typed. */
  lemma WellTypedPut(g: Rows, width: nat, height: nat, c: Coord, v: bv16)
    requires Shape(g, width, height) && WellTyped(g, width, height) && Inside(width, height, c)
    requires KnownCell(v)
    ensures WellTyped(Cells.Put(g, width, height, c, v), width, height)
  {
  }

  /** A move exchanges the two cells, the mover with its updated bit toggled;
      no other cell changes. */
  lemma MovedCells(g: Rows, width: nat, height: nat, c: Coord, target: Coord)
    requires Shape(g, width, height)
    requires Inside(width, height, c) && Inside(width, height, target) && c != target
    ensures At(Moved(g, width, height, c, target), target) == At(g, c) ^ 1
    ensures At(Moved(g, width, height, c, target), c) == At(g, target)
    ensures forall d :: Inside(width, height, d) && d != c && d != target ==>
              At(Moved(g, width, height, c, target), d) == At(g, d)
  {
  }

  /** A move keeps the grid well typed. */
  lemma MovedWellTyped(g: Rows, width: nat, height: nat, c: Coord, target: Coord)
    requires Shape(g, width, height) && WellTyped(g, width, height)
    requires Inside(width, height, c) && Inside(width, height, target)
    ensures WellTyped(Moved(g, width, height, c, target), width, height)
  {
    assert KnownCell(At(g, c) ^ 1);
    WellTypedPut(g, width, height, c, At(g, c) ^ 1);
  }

  /** Blocks are where they were, and as they were. */
  ghost predicate BlocksKept(g: Rows, r: Rows, width: nat, height: nat)
    requires Shape(g, width, height) && Shape(r, width, height)
  {
    forall d :: Inside(width, height, d) && TypeOf(At(g, d)) == TILE_BLOCK ==> At(r, d) == At(g, d)
  }

  lemma BlocksKeptTrans(g1: Rows, g2: Rows, g3: Rows, width: nat, height: nat)
    requires Shape(g1, width, height) && Shape(g2, width, height) && Shape(g3, width, height)
    requires BlocksKept(g1, g2, width, height) && BlocksKept(g2, g3, width, height)
    ensures BlocksKept(g1, g3, width, height)
  {
    forall d | Inside(width, height, d) && TypeOf(At(g1, d)) == TILE_BLOCK
      ensures At(g3, d) == At(g1, d)
    {
      assert At(g2, d) == At(g1, d);
    }
  }

  /** The direction the water at `c` moves in, if it moves: the first free
      fall direction, or, when it cannot fall and water is above it, the first
      free sideways one. */
  ghost function WaterMove(g: Rows, width: nat, height: nat, tick: nat, c: Coord): (r: Option<nat>)
    requires WaterAt(g, width, height, c)
    ensures r.Some? ==> r.value < |DIRECTIONS| && Free(g, width, height, c, r.value)
    ensures r.Some? ==> r.value in {S, SW, SE, W, E}
  {
    var fall := FirstFree(g, width, height, c, FallOrder(tick), 0);
    if fall.Some? then Some(FallOrder(tick)[fall.value])
    else if !Inside(width, height, Target(c, N)) then None
    else
      var side := FirstFree(g, width, height, c, LATERAL, 0);
      if TypeOf(At(g, Target(c, N))) == TILE_WATER && side.Some? then Some(LATERAL[side.value])
      else None
  }

  /** A water update either makes the one move `WaterMove` names, or writes
      only its own cell, leaving there water or an empty cell. */
  lemma WaterStepCells(g: Rows, width: nat, height: nat, tick: nat, c: Coord)
    requires WaterAt(g, width, height, c)
    ensures WaterMove(g, width, height, tick, c).Some? ==>
              WaterStep(g, width, height, tick, c)
                == Moved(g, width, height, c, Target(c, WaterMove(g, width, height, tick, c).value))
    ensures WaterMove(g, width, height, tick, c).None? ==>
              && (forall d :: Inside(width, height, d) && d != c ==>
                    At(WaterStep(g, width, height, tick, c), d) == At(g, d))
              && (|| At(WaterStep(g, width, height, tick, c), c) == 0
                  || TypeOf(At(WaterStep(g, width, height, tick, c), c)) == TILE_WATER)
  {
    var fall := FirstFree(g, width, height, c, FallOrder(tick), 0);
    if fall.None? && Inside(width, height, Target(c, N)) {
      var above := At(g, Target(c, N));
      var side := FirstFree(g, width, height, c, LATERAL, 0);
      if !(TypeOf(above) == TILE_WATER && side.Some?) && TypeOf(above) == TILE_WATER {
        assert TypeOf(Pressurized(At(g, c), above)) == TILE_WATER;
      }
    }
  }

  /** The mover and its target are different cells on the grid. */
  lemma MoveTargetInside(g: Rows, width: nat, height: nat, tick: nat, c: Coord)
    requires WaterAt(g, width, height, c) && WaterMove(g, width, height, tick, c).Some?
    ensures Inside(width, height, Target(c, WaterMove(g, width, height, tick, c).value))
    ensures Target(c, WaterMove(g, width, height, tick, c).value) != c
    ensures TypeOf(At(g, Target(c, WaterMove(g, width, height, tick, c).value))) != TILE_BLOCK
  {
    var t := Target(c, WaterMove(g, width, height, tick, c).value);
    WaterCanSwapDefined(g, width, height, c, t);
  }

  /** A water update keeps the grid well typed. */
  lemma WaterStepWellTyped(g: Rows, width: nat, height: nat, tick: nat, c: Coord)
    requires WaterAt(g, width, height, c)
    ensures WellTyped(WaterStep(g, width, height, tick, c), width, height)
  {
    WaterStepCells(g, width, height, tick, c);
    var m := WaterMove(g, width, height, tick, c);
    if m.Some? {
      MoveTargetInside(g, width, height, tick, c);
      MovedWellTyped(g, width, height, c, Target(c, m.value));
    } else {
      KnownCellType(At(WaterStep(g, width, height, tick, c), c));
    }
  }

  /** A water update moves no block. */
  lemma WaterStepKeepsBlocks(g: Rows, width: nat, height: nat, tick: nat, c: Coord)
    requires WaterAt(g, width, height, c)
    ensures BlocksKept(g, WaterStep(g, width, height, tick, c), width, height)
  {
    WaterStepCells(g, width, height, tick, c);
    var m := WaterMove(g, width, height, tick, c);
    if m.Some? {
      MoveTargetInside(g, width, height, tick, c);
      MovedCells(g, width, height, c, Target(c, m.value));
    }
  }

  /** The cells a water update may write: its own and the five it may move to. */
  predicate WaterReach(c: Coord, d: Coord) {
    d == c || d == Target(c, S) || d == Target(c, SW) || d == Target(c, SE)
    || d == Target(c, W) || d == Target(c, E)
  }

  /** Water never rises: an update writes only its own cell and the cells
      below, diagonally below and beside it. */
  lemma WaterStepLocal(g: Rows, width: nat, height: nat, tick: nat, c: Coord)
    requires WaterAt(g, width, height, c)
    ensures forall d :: Inside(width, height, d) && !WaterReach(c, d) ==>
              At(WaterStep(g, width, height, tick, c), d) == At(g, d)
  {
    WaterStepCells(g, width, height, tick, c);
    var m := WaterMove(g, width, height, tick, c);
    if m.Some? {
      MoveTargetInside(g, width, height, tick, c);
      MovedCells(g, width, height, c, Target(c, m.value));
    }
  }

  /** The first free direction is the one `FirstFree` finds. */
  lemma FirstFreeIs(g: Rows, width: nat, height: nat, c: Coord, dirs: seq<nat>, i: nat)
    requires WaterAt(g, width, height, c) && Directions(dirs) && i < |dirs|
    requires Free(g, width, height, c, dirs[i])
    requires forall k :: 0 <= k < i ==> !Free(g, width, height, c, dirs[k])
    ensures FirstFree(g, width, height, c, dirs, 0) == Some(i)
  {
  }

  /** Water falls into the first of its fall directions that `canSwap` admits,
      trading places with what was there and toggling its updated bit. */
  lemma WaterFalls(g: Rows, width: nat, height: nat, tick: nat, c: Coord, i: nat)
    requires WaterAt(g, width, height, c) && i < |FallOrder(tick)|
    requires Free(g, width, height, c, FallOrder(tick)[i])
    requires forall k :: 0 <= k < i ==> !Free(g, width, height, c, FallOrder(tick)[k])
    ensures WaterStep(g, width, height, tick, c)
              == Moved(g, width, height, c, Target(c, FallOrder(tick)[i]))
  {
    FirstFreeIs(g, width, height, c, FallOrder(tick), i);
  }

  /** Water that cannot fall and has water above it slides into the first of
      west and east that `canSwap` admits. */
  lemma WaterSlides(g: Rows, width: nat, height: nat, tick: nat, c: Coord, i: nat)
    requires WaterAt(g, width, height, c) && i < |LATERAL|
    requires forall k :: 0 <= k < |FallOrder(tick)| ==> !Free(g, width, height, c, FallOrder(tick)[k])
    requires Inside(width, height, Target(c, N)) && TypeOf(At(g, Target(c, N))) == TILE_WATER
    requires Free(g, width, height, c, LATERAL[i])
    requires forall k :: 0 <= k < i ==> !Free(g, width, height, c, LATERAL[k])
    ensures WaterStep(g, width, height, tick, c)
              == Moved(g, width, height, c, Target(c, LATERAL[i]))
  {
    FirstFreeIs(g, width, height, c, LATERAL, i);
  }

  /** Water that cannot move, under water, takes the pressure of the water
      above plus one, capped at 7, and keeps its other fields; on the bottom
      row it is cleared instead. No other cell changes. */
  lemma WaterPressure(g: Rows, width: nat, height: nat, tick: nat, c: Coord)
    requires WaterAt(g, width, height, c)
    requires forall k :: 0 <= k < |FallOrder(tick)| ==> !Free(g, width, height, c, FallOrder(tick)[k])
    requires forall k :: 0 <= k < |LATERAL| ==> !Free(g, width, height, c, LATERAL[k])
    requires Inside(width, height, Target(c, N)) && TypeOf(At(g, Target(c, N))) == TILE_WATER
    ensures Inside(width, height, Target(c, S)) ==>
              && Fields(At(WaterStep(g, width, height, tick, c), c))
                   == Fields(At(g, c))[DATA_PRESSURE := NextPressure(Fields(At(g, Target(c, N)))[DATA_PRESSURE])]
              && Fields(At(WaterStep(g, width, height, tick, c), c))[DATA_PRESSURE] <= 7
    ensures !Inside(width, height, Target(c, S)) ==> At(WaterStep(g, width, height, tick, c), c) == 0
    ensures forall d :: Inside(width, height, d) && d != c ==>
              At(WaterStep(g, width, height, tick, c), d) == At(g, d)
  {
    assert FirstFree(g, width, height, c, FallOrder(tick), 0).None?;
    assert FirstFree(g, width, height, c, LATERAL, 0).None?;
  }

  /** Water that does not move and has a cell above it drains away on the
      bottom row of the grid (nothing there can be below it). */
  lemma WaterDrains(g: Rows, width: nat, height: nat, tick: nat, c: Coord)
    requires WaterAt(g, width, height, c)
    requires WaterMove(g, width, height, tick, c).None?
    requires Inside(width, height, Target(c, N)) && !Inside(width, height, Target(c, S))
    ensures At(WaterStep(g, width, height, tick, c), c) == 0
    ensures forall d :: Inside(width, height, d) && d != c ==>
              At(WaterStep(g, width, height, tick, c), d) == At(g, d)
  {
  }

  /** On the bottom row water cannot fall at all. */
  lemma NoFallOnBottomRow(g: Rows, width: nat, height: nat, tick: nat, c: Coord)
    requires WaterAt(g, width, height, c) && !Inside(width, height, Target(c, S))
    ensures forall k :: 0 <= k < |FallOrder(tick)| ==> !Free(g, width, height, c, FallOrder(tick)[k])
  {
  }

  /** Water with nothing above it (the top row) that cannot fall stays put. */
  lemma WaterOnTopRow(g: Rows, width: nat, height: nat, tick: nat, c: Coord)
    requires WaterAt(g, width, height, c) && !Inside(width, height, Target(c, N))
    requires forall k :: 0 <= k < |FallOrder(tick)| ==> !Free(g, width, height, c, FallOrder(tick)[k])
    ensures WaterStep(g, width, height, tick, c) == g
  {
    assert FirstFree(g, width, height, c, FallOrder(tick), 0).None?;
  }

  /** Water over an empty cell falls straight down. */
  lemma WaterFallsIntoEmpty(g: Rows, width: nat, height: nat, tick: nat, c: Coord)
    requires WaterAt(g, width, height, c)
    requires Inside(width, height, Target(c, S)) && At(g, Target(c, S)) == 0
    ensures WaterStep(g, width, height, tick, c) == Moved(g, width, height, c, Target(c, S))
  {
    assert TypeOf(0) == TILE_NONE;
    WaterFalls(g, width, height, tick, c, 0);
  }

  /** The water that moved carries an updated bit equal to `tick % 2` when it
      did not before, so the rest of the sweep skips it. */
  lemma MovedWaterMarked(g: Rows, width: nat, height: nat, tick: nat, c: Coord)
    requires WaterAt(g, width, height, c) && WaterMove(g, width, height, tick, c).Some?
    requires Fields(At(g, c))[DATA_UPDATED] as int != tick % 2
    ensures var t := Target(c, WaterMove(g, width, height, tick, c).value);
            && Inside(width, height, t)
            && TypeOf(At(WaterStep(g, width, height, tick, c), t)) == TILE_WATER
            && Fields(At(WaterStep(g, width, height, tick, c), t))[DATA_UPDATED] as int == tick % 2
  {
    var t := Target(c, WaterMove(g, width, height, tick, c).value);
    var r := WaterStep(g, width, height, tick, c);
    assert Inside(width, height, t) && At(r, t) == At(g, c) ^ 1 by {
      WaterStepCells(g, width, height, tick, c);
      MoveTargetInside(g, width, height, tick, c);
      MovedCells(g, width, height, c, t);
    }
    FlipFields(At(g, c));
    UpdatedBitToggled(Fields(At(g, c))[DATA_UPDATED], tick);
  }

  lemma UpdatedBitToggled(u: bv32, tick: nat)
    requires u <= 1 && u as int != tick % 2
    ensures (u ^ 1) as int == tick % 2
  {
  }

  // One tick of the simulation: the brush stroke, then the sweep.

  /** The grid after the sweep reaches `c`: a cell whose updated bit equals
      `tick % 2`, an empty cell and a fixed tile are skipped; otherwise the
      tile's update runs (water's rule; oil's update does nothing). */
  ghost function CellStep(g: Rows, width: nat, height: nat, tick: nat, c: Coord): (r: Rows)
    requires Shape(g, width, height) && WellTyped(g, width, height) && Inside(width, height, c)
    ensures Shape(r, width, height) && WellTyped(r, width, height) && BlocksKept(g, r, width, height)
  {
    var f := Fields(At(g, c));
    KnownCellType(At(g, c));
    if f[DATA_UPDATED] as int == tick % 2 || f[DATA_TYPE] == TILE_NONE || Fixed(f[DATA_TYPE]) then g
    else if f[DATA_TYPE] == TILE_WATER then
      WaterStepWellTyped(g, width, height, tick, c);
      WaterStepKeepsBlocks(g, width, height, tick, c);
      WaterStep(g, width, height, tick, c)
    else g
  }

  /** The sweep over row `y` from column `x` down to column 0. */
  ghost function RowSweep(g: Rows, width: nat, height: nat, tick: nat, y: int, x: int): (r: Rows)
    requires Shape(g, width, height) && WellTyped(g, width, height)
    requires 0 <= y < height && -1 <= x < width
    decreases x + 1
    ensures Shape(r, width, height) && WellTyped(r, width, height) && BlocksKept(g, r, width, height)
  {
    if x < 0 then g
    else
      var g1 := CellStep(g, width, height, tick, (x, y));
      var r := RowSweep(g1, width, height, tick, y, x - 1);
      BlocksKeptTrans(g, g1, r, width, height);
      r
  }

  /** The sweep over rows `y` down to 0, each row from its last column to its
      first. */
  ghost function GridSweep(g: Rows, width: nat, height: nat, tick: nat, y: int): (r: Rows)
    requires Shape(g, width, height) && WellTyped(g, width, height) && -1 <= y < height
    decreases y + 1
    ensures Shape(r, width, height) && WellTyped(r, width, height) && BlocksKept(g, r, width, height)
  {
    if y < 0 then g
    else
      var g1 := RowSweep(g, width, height, tick, y, width - 1);
      var r := GridSweep(g1, width, height, tick, y - 1);
      BlocksKeptTrans(g, g1, r, width, height);
      r
  }

  /** A block is skipped by the sweep: it is never moved by its own update. */
  lemma BlockSkipped(g: Rows, width: nat, height: nat, tick: nat, c: Coord)
    requires Shape(g, width, height) && WellTyped(g, width, height) && Inside(width, height, c)
    requires TypeOf(At(g, c)) == TILE_BLOCK
    ensures CellStep(g, width, height, tick, c) == g
  {
  }

  /** A cell the sweep already marked for this tick is skipped. */
  lemma MarkedSkipped(g: Rows, width: nat, height: nat, tick: nat, c: Coord)
    requires Shape(g, width, height) && WellTyped(g, width, height) && Inside(width, height, c)
    requires Fields(At(g, c))[DATA_UPDATED] as int == tick % 2
    ensures CellStep(g, width, height, tick, c) == g
  {
  }

  /** `game.player.isDrawing`: `false`, or the tile type to paint. */
  datatype Brush = NotDrawing | Drawing(tile: bv32)

  /** The cell `pack([tile, 0, 0, (tick + 1) % 2])` stores. */
  function PaintedCell(tile: bv32, tick: nat): (r: bv16)
    requires tile <= TILE_OIL
    ensures Fields(r) == [tile, 0, 0, ((tick + 1) % 2) as bv32]
    ensures KnownCell(r)
  {
    var r := PackedCell([tile, 0, 0, ((tick + 1) % 2) as bv32]);
    KnownCellType(r);
    r
  }

  /** The brush stroke that opens `update`, at grid cell `c`. It writes only
      when the brush is set and either erases (`TILE_NONE`) or finds the cell
      empty. A column off the grid is read as an empty cell and written to no
      effect, as a `Uint16Array` does out of range; a row off the grid has no
      array at all, so drawing there is excluded. */
  function Paint(g: Rows, width: nat, height: nat, tick: nat, brush: Brush, c: Coord): (r: Rows)
    requires Shape(g, width, height)
    requires brush.Drawing? ==> 0 <= c.1 < height && brush.tile <= TILE_OIL
    ensures Shape(r, width, height)
  {
    if brush.NotDrawing? || !Inside(width, height, c) then g
    else if brush.tile == TILE_NONE || TypeOf(At(g, c)) == TILE_NONE then
      Cells.Put(g, width, height, c, PaintedCell(brush.tile, tick))
    else g
  }

  /** A stroke changes at most the cell under the pointer. It paints there
      exactly when the brush erases or the cell is empty, and the painted cell
      holds the brush's type with temperature and pressure 0 and an updated
      bit that differs from `tick % 2`, so the sweep of the same tick updates
      it. It keeps the grid well typed. */
  lemma PaintFacts(g: Rows, width: nat, height: nat, tick: nat, brush: Brush, c: Coord)
    requires Shape(g, width, height) && WellTyped(g, width, height)
    requires brush.Drawing? ==> 0 <= c.1 < height && brush.tile <= TILE_OIL
    ensures WellTyped(Paint(g, width, height, tick, brush, c), width, height)
    ensures forall d :: Inside(width, height, d) && d != c ==>
              At(Paint(g, width, height, tick, brush, c), d) == At(g, d)
    ensures Inside(width, height, c) && brush.Drawing? &&
            (brush.tile == TILE_NONE || TypeOf(At(g, c)) == TILE_NONE) ==>
              && Fields(At(Paint(g, width, height, tick, brush, c), c))
                   == [brush.tile, 0, 0, ((tick + 1) % 2) as bv32]
              && Fields(At(Paint(g, width, height, tick, brush, c), c))[DATA_UPDATED] as int != tick % 2
    ensures !(Inside(width, height, c) && brush.Drawing? &&
              (brush.tile == TILE_NONE || TypeOf(At(g, c)) == TILE_NONE)) ==>
              Paint(g, width, height, tick, brush, c) == g
  {
    if Inside(width, height, c) && brush.Drawing? &&
       (brush.tile == TILE_NONE || TypeOf(At(g, c)) == TILE_NONE) {
      WellTypedPut(g, width, height, c, PaintedCell(brush.tile, tick));
    }
  }

  /** The grid after `update()` at tick `tick`, with brush `brush` and the
      pointer over grid cell `pointer`. */
  ghost function Updated(g: Rows, width: nat, height: nat, tick: nat, brush: Brush, pointer: Coord): (r: Rows)
    requires Shape(g, width, height) && WellTyped(g, width, height)
    requires brush.Drawing? ==> 0 <= pointer.1 < height && brush.tile <= TILE_OIL
    ensures Shape(r, width, height) && WellTyped(r, width, height)
  {
    var painted := Paint(g, width, height, tick, brush, pointer);
    PaintFacts(g, width, height, tick, brush, pointer);
    GridSweep(painted, width, height, tick, height - 1)
  }

  /** Within a tick no block moves except the one under the pointer, and that
      one only when the brush erases. */
  lemma UpdateKeepsBlocks(g: Rows, width: nat, height: nat, tick: nat, brush: Brush, pointer: Coord)
    requires Shape(g, width, height) && WellTyped(g, width, height)
    requires brush.Drawing? ==> 0 <= pointer.1 < height && brush.tile <= TILE_OIL
    ensures forall d :: Inside(width, height, d) && d != pointer && TypeOf(At(g, d)) == TILE_BLOCK ==>
              At(Updated(g, width, height, tick, brush, pointer), d) == At(g, d)
    ensures (brush.Drawing? ==> brush.tile != TILE_NONE) ==>
              BlocksKept(g, Updated(g, width, height, tick, brush, pointer), width, height)
  {
    var painted := Paint(g, width, height, tick, brush, pointer);
    PaintFacts(g, width, height, tick, brush, pointer);
    assert BlocksKept(painted, Updated(g, width, height, tick, brush, pointer), width, height);
    if brush.Drawing? ==> brush.tile != TILE_NONE {
      assert BlocksKept(g, painted, width, height);
      BlocksKeptTrans(g, painted, Updated(g, width, height, tick, brush, pointer), width, height);
    }
  }

  /** `game.mouse`: the pointer position and the button and modifier states. */
  datatype Mouse = Mouse(position: (int, int), mouse1: bool, shift: bool, meta: bool, ctrl: bool)

  /** The decision `processInput` makes: no brush unless button 1 is down;
      with it down, meta erases, else shift paints water, else ctrl paints
      oil, else the brush paints blocks. */
  function BrushFor(m: Mouse): (r: Brush)
    ensures r.Drawing? <==> m.mouse1
    ensures r.Drawing? ==> r.tile <= TILE_OIL
    ensures r.Drawing? ==> (r.tile == TILE_NONE <==> m.meta)
    ensures r.Drawing? ==> (r.tile == TILE_WATER <==> !m.meta && m.shift)
    ensures r.Drawing? ==> (r.tile == TILE_OIL <==> !m.meta && !m.shift && m.ctrl)
    ensures r.Drawing? ==> (r.tile == TILE_BLOCK <==> !m.meta && !m.shift && !m.ctrl)
  {
    if m.mouse1 && m.meta then Drawing(TILE_NONE)
    else if m.mouse1 && m.shift then Drawing(TILE_WATER)
    else if m.mouse1 && m.ctrl then Drawing(TILE_OIL)
    else if m.mouse1 then Drawing(TILE_BLOCK)
    else NotDrawing
  }

  /** `game.gridNodeWidth` and `game.gridNodeHeight`, in pixels. */
  const GRID_NODE_WIDTH := 10
  const GRID_NODE_HEIGHT := 10

  /** `screenToGridCoords(coords)`: the grid cell whose pixel square holds
      the point, by rounding each quotient down. */
  function ScreenToGrid(p: (int, int)): (r: Coord)
    ensures GRID_NODE_WIDTH * r.0 <= p.0 < GRID_NODE_WIDTH * (r.0 + 1)
    ensures GRID_NODE_HEIGHT * r.1 <= p.1 < GRID_NODE_HEIGHT * (r.1 + 1)
  {
    (p.0 / GRID_NODE_WIDTH, p.1 / GRID_NODE_HEIGHT)
  }

  /** The state of `client/client.js` the simulation reads and writes. */
  class Game {
    var tick: nat
    var mouse: Mouse
    var isDrawing: Brush
    const grid: Grid

    ghost predicate Valid()
      reads this, grid, grid.data
    {
      && grid.Valid() && WellTyped(grid.Contents, grid.width, grid.height)
      && (isDrawing.Drawing? ==> isDrawing.tile <= TILE_OIL)
    }

    /** The initial `game`, with an empty grid of `width` by `height`. */
    constructor (width: nat, height: nat)
      ensures Valid() && fresh(grid) && fresh(grid.data)
      ensures tick == 0 && mouse == Mouse((0, 0), false, false, false, false)
      ensures isDrawing == NotDrawing
      ensures grid.width == width && grid.height == height
      ensures grid.Contents == Empty(width, height)
    {
      tick := 0;
      mouse := Mouse((0, 0), false, false, false, false);
      isDrawing := NotDrawing;
      grid := new Grid(width, height);
    }

    /** `processInput()` */
    method ProcessInput()
      requires Valid()
      modifies this
      ensures Valid()
      ensures isDrawing == BrushFor(mouse)
      ensures tick == old(tick) && mouse == old(mouse)
    {
      isDrawing := BrushFor(mouse);
    }

    /** The brush stroke that opens `update()`. */
    method PaintStroke(c: Coord)
      requires Valid()
      requires isDrawing.Drawing? ==> 0 <= c.1 < grid.height
      modifies grid, grid.data
      ensures Valid()
      ensures grid.Contents == Paint(old(grid.Contents), grid.width, grid.height, tick, isDrawing, c)
    {
      PaintFacts(grid.Contents, grid.width, grid.height, tick, isDrawing, c);
      if isDrawing.Drawing? {
        var inside := grid.InBounds(c);
        var paint := isDrawing.tile == TILE_NONE;
        if !paint && inside {
          var v := grid.Peek(c);
          paint := Fields(v)[DATA_TYPE] == TILE_NONE;
        }
        if paint && inside {
          var packed := Pack(IsArray([isDrawing.tile, 0, 0, ((tick + 1) % 2) as bv32]));
          grid.Put(c, packed.value);
        }
      }
    }

    /** `update()` at the current tick. */
    method Update()
      requires Valid()
      requires isDrawing.Drawing? ==> 0 <= ScreenToGrid(mouse.position).1 < grid.height
      modifies grid, grid.data
      ensures Valid()
      ensures grid.Contents
                == Updated(old(grid.Contents), grid.width, grid.height, tick, isDrawing,
                           ScreenToGrid(mouse.position))
    {
      var gridCoords := ScreenToGrid(mouse.position);
      PaintStroke(gridCoords);
      ghost var target := GridSweep(grid.Contents, grid.width, grid.height, tick, grid.height - 1);
      var y := grid.height - 1;
      while y >= 0
        invariant -1 <= y < grid.height
        invariant Valid()
        invariant GridSweep(grid.Contents, grid.width, grid.height, tick, y) == target
        decreases y + 1
      {
        SweepRow(y);
        y := y - 1;
      }
    }

    /** The inner loop of the sweep in `update()`: row `y` from its last
        column to its first. */
    method SweepRow(y: int)
      requires Valid() && 0 <= y < grid.height
      modifies grid, grid.data
      ensures Valid()
      ensures grid.Contents == RowSweep(old(grid.Contents), grid.width, grid.height, tick, y, grid.width - 1)
    {
      ghost var target := RowSweep(grid.Contents, grid.width, grid.height, tick, y, grid.width - 1);
      var x := grid.width - 1;
      while x >= 0
        invariant -1 <= x < grid.width
        invariant Valid()
        invariant RowSweep(grid.Contents, grid.width, grid.height, tick, y, x) == target
        decreases x + 1
      {
        SweepCell((x, y));
        x := x - 1;
      }
    }

    /** The body of the sweep in `update()` at cell `coords`. */
    method SweepCell(coords: Coord)
      requires Valid() && Inside(grid.width, grid.height, coords)
      modifies grid, grid.data
      ensures Valid()
      ensures grid.Contents == CellStep(old(grid.Contents), grid.width, grid.height, tick, coords)
    {
      ghost var g := grid.Contents;
      var v := grid.Peek(coords);
      var tile := Fields(v);
      KnownCellType(v);
      if !(tile[DATA_UPDATED] as int == tick % 2 || tile[DATA_TYPE] == TILE_NONE || Fixed(tile[DATA_TYPE])) {
        var neighbors := grid.Neighbors(coords);
        if tile[DATA_TYPE] == TILE_WATER {
          grid.WaterUpdate(coords, tile, neighbors, tick);
        }
      }
      assert grid.Contents == CellStep(g, grid.width, grid.height, tick, coords);
    }

    /** One fixed-length step of `gameLoop`: `game.tick++` then `update()`. */
    method Step()
      requires Valid()
      requires isDrawing.Drawing? ==> 0 <= ScreenToGrid(mouse.position).1 < grid.height
      modifies this, grid, grid.data
      ensures Valid()
      ensures tick == old(tick) + 1 && mouse == old(mouse) && isDrawing == old(isDrawing)
      ensures grid.Contents
                == Updated(old(grid.Contents), grid.width, grid.height, tick, isDrawing,
                           ScreenToGrid(mouse.position))
    {
      tick := tick + 1;
      Update();
    }
  }
}
