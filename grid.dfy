/** The grid object built by `client/grid.js`: `height` rows of `width`
    16-bit cells, with cell access, the neighbour queries, the stack-based flood
    fill, and the two bit toggles. The rows live in an `array2` indexed
    `[y, x]`; the ghost field `Contents` holds the same contents as a value, and
    every operation is stated as a function of it. */
module GridStore {
  import opened Js
  import opened Cells
  import DataTools
  import opened FloodFill

  /** `value & ~(1 << 1)`: the cell with its static flag cleared. */
  function ClearStatic(v: bv16): (r: bv16)
    ensures r & 2 == 0 && r | 2 == v | 2
  {
    v & 0xFFFD
  }

  /** Clearing the static flag sets the unpacked static field to 0 and leaves
      the other four fields as they were. */
  lemma ClearStaticFields(v: bv16)
    ensures DataTools.Unpacked(Widen(ClearStatic(v)))
         == DataTools.Unpacked(Widen(v))[DataTools.DATA_STATIC := 0]
  {
  }

  /** `swap(source, target)` as written: the cells are exchanged and then the
      static flag of the new source cell is cleared. The flag of the cell moved
      to `target` is kept, since the statement meant to clear it changes only a
      local copy. */
  function SwapAsWritten(g: Rows, width: nat, height: nat, source: Coord, target: Coord): (r: Rows)
    requires Shape(g, width, height)
    requires Inside(width, height, source) && Inside(width, height, target)
    ensures Shape(r, width, height)
    ensures At(r, source) == ClearStatic(At(g, target))
    ensures source != target ==> At(r, target) == At(g, source)
    ensures forall d :: Inside(width, height, d) && d != source && d != target ==>
              At(r, d) == At(g, d)
  {
    Put(Swap(g, width, height, source, target), width, height, source, ClearStatic(At(g, target)))
  }

  /** The evidently intended `swap`: the cells are exchanged and both lose
      their static flag. */
  function SwapClearingBoth(g: Rows, width: nat, height: nat, source: Coord, target: Coord): (r: Rows)
    requires Shape(g, width, height)
    requires Inside(width, height, source) && Inside(width, height, target)
    ensures Shape(r, width, height)
    ensures At(r, source) == ClearStatic(At(g, target))
    ensures source != target ==> At(r, target) == ClearStatic(At(g, source))
    ensures forall d :: Inside(width, height, d) && d != source && d != target ==>
              At(r, d) == At(g, d)
  {
    Put(Put(g, width, height, source, ClearStatic(At(g, target))), width, height, target, ClearStatic(At(g, source)))
  }

  /** After the intended swap neither cell is static, whatever the two cells held. */
  lemma SwapClearingBothUnflags(g: Rows, width: nat, height: nat, source: Coord, target: Coord)
    requires Shape(g, width, height)
    requires Inside(width, height, source) && Inside(width, height, target)
    ensures var r := SwapClearingBoth(g, width, height, source, target);
      && DataTools.Unpacked(Widen(At(r, source)))[DataTools.DATA_STATIC] == 0
      && DataTools.Unpacked(Widen(At(r, target)))[DataTools.DATA_STATIC] == 0
  {
    var r := SwapClearingBoth(g, width, height, source, target);
    ClearStaticFields(At(g, target));
    ClearStaticFields(At(g, source));
    if source == target {
      ClearStaticFields(At(Put(g, width, height, source, ClearStatic(At(g, target))), target));
    }
  }

  /** `cell &= ~(1 << 1)` on a `Uint16Array` element stores `ClearStatic(cell)`. */
  lemma ClearStaticStored(v: bv16)
    ensures ToUint16(Widen(v) & 0xFFFF_FFFD) == ClearStatic(v)
  {
  }

  /** As written, a static cell keeps its flag when it is swapped into the
      target: swapping a static empty-typed cell (value 10: type 0, static bit
      set) at (0, 0) with an empty cell at (1, 0) leaves the target static. */
  lemma SwapKeepsTargetStatic()
    ensures var r := SwapAsWritten([[10, 0]], 2, 1, (0, 0), (1, 0));
      DataTools.Unpacked(Widen(At(r, (1, 0))))[DataTools.DATA_STATIC] == 1
  {
    var r := SwapAsWritten([[10, 0]], 2, 1, (0, 0), (1, 0));
    assert At(r, (1, 0)) == 10;
  }

  /** The swap scenario of the grid tests on their 10 x 10 grid: 10 at (1, 1)
      and 2 at (5, 3). As written, (1, 1) ends up holding 0, not 2, because 2
      is exactly the static bit; (5, 3) holds 10. */
  lemma SwapClearsMovedFlag()
    ensures var g := Put(Put(Empty(10, 10), 10, 10, (1, 1), 10), 10, 10, (5, 3), 2);
      var r := SwapAsWritten(g, 10, 10, (1, 1), (5, 3));
      At(r, (1, 1)) == 0 && At(r, (5, 3)) == 10
  {
    var g := Put(Put(Empty(10, 10), 10, 10, (1, 1), 10), 10, 10, (5, 3), 2);
    assert At(g, (1, 1)) == 10 && At(g, (5, 3)) == 2;
  }

  /** The swap the grid tests expect is the plain exchange `Cells.Swap`, the one
      the client's grid performs: on the same scenario (1, 1) ends up holding 2
      and (5, 3) holds 10. */
  lemma PlainSwapMeetsTest()
    ensures var g := Put(Put(Empty(10, 10), 10, 10, (1, 1), 10), 10, 10, (5, 3), 2);
      var r := Swap(g, 10, 10, (1, 1), (5, 3));
      At(r, (1, 1)) == 2 && At(r, (5, 3)) == 10
  {
    var g := Put(Put(Empty(10, 10), 10, 10, (1, 1), 10), 10, 10, (5, 3), 2);
    assert At(g, (1, 1)) == 10 && At(g, (5, 3)) == 2;
  }

  /** The rows the constructor's loop allocates: `new Array(height)` holds
      `height` empty slots, and the loop fills slots `0 .. width - 1` with rows
      of `width` cells (and extends the array when `width > height`). */
  function AllocatedRows(width: nat, height: nat): (r: seq<Option<seq<bv16>>>)
    ensures |r| == if width < height then height else width
    ensures forall y :: 0 <= y < |r| ==> (r[y].Some? <==> y < width)
  {
    seq(if width < height then height else width,
        y => if y < width then Some(seq(width, _ => 0)) else None)
  }

  /** With fewer columns than rows, the bottom rows do not exist: on a 2 x 3
      grid, the in-bounds coordinate (0, 2) names a missing row. */
  lemma MissingRow()
    ensures Inside(2, 3, (0, 2)) && AllocatedRows(2, 3)[2].None?
  {
  }

  /** The grid object. */
  class Grid {
    const width: nat
    const height: nat
    const data: array2<bv16>
    ghost var Contents: Rows

    ghost predicate Valid()
      reads this, data
    {
      && data.Length0 == height && data.Length1 == width
      && Shape(Contents, width, height)
      && forall y, x :: 0 <= y < height && 0 <= x < width ==> data[y, x] == Contents[y][x]
    }

    /** `Grid(width, height)`, allocating `height` rows of `width` zero cells. */
    constructor (width: nat, height: nat)
      ensures Valid() && fresh(data)
      ensures this.width == width && this.height == height
      ensures Contents == Empty(width, height)
    {
      this.width := width;
      this.height := height;
      data := new bv16[height, width]((y, x) => 0);
      Contents := Empty(width, height);
    }

    /** `peek(coords)` */
    method Peek(c: Coord) returns (v: bv16)
      requires Valid() && Inside(width, height, c)
      ensures v == At(Contents, c)
    {
      v := data[c.1, c.0];
    }

    /** `this[y][x] = v` for a value that already fits the cell. */
    method Store(c: Coord, v: bv16)
      requires Valid() && Inside(width, height, c)
      modifies this, data
      ensures Valid()
      ensures Contents == Cells.Put(old(Contents), width, height, c, v)
    {
      data[c.1, c.0] := v;
      Contents := Cells.Put(Contents, width, height, c, v);
    }

    /** `put(coords, value)`: the cell holds `value` modulo 2^16 afterwards. */
    method Put(c: Coord, value: bv32)
      requires Valid() && Inside(width, height, c)
      modifies this, data
      ensures Valid()
      ensures Contents == Cells.Put(old(Contents), width, height, c, ToUint16(value))
    {
      Store(c, ToUint16(value));
    }

    /** `clear(coords)` */
    method Clear(c: Coord)
      requires Valid() && Inside(width, height, c)
      modifies this, data
      ensures Valid()
      ensures Contents == Cells.Put(old(Contents), width, height, c, 0)
    {
      Store(c, 0);
    }

    /** `swap(source, target)` */
    method Swap(source: Coord, target: Coord)
      requires Valid() && Inside(width, height, source) && Inside(width, height, target)
      modifies this, data
      ensures Valid()
      ensures Contents == SwapAsWritten(old(Contents), width, height, source, target)
    {
      var tmp := Peek(source);
      var moved := Peek(target);
      Store(source, moved);
      Store(target, tmp);
      // The local copy loses its flag; the array does not see it.
      tmp := ClearStatic(tmp);
      var cell := Peek(source);
      ClearStaticStored(cell);
      Store(source, ToUint16(Widen(cell) & 0xFFFF_FFFD));
    }

    /** `inBounds(coords)` */
    method InBounds(c: Coord) returns (b: bool)
      ensures b <==> 0 <= c.0 < width && 0 <= c.1 < height
    {
      b := c.0 >= 0 && c.0 < width && c.1 >= 0 && c.1 < height;
    }

    /** `add(coords, vec)`: throws unless both arguments are arrays. */
    method Add(coords: Arg<Coord>, vec: Arg<Coord>) returns (r: Option<Coord>)
      ensures r == CheckedAdd(coords, vec)
    {
      if coords.NotArray? || vec.NotArray? {
        return None;
      }
      r := Some((coords.elems.0 + vec.elems.0, coords.elems.1 + vec.elems.1));
    }

    /** `neighbors(coords, out)`: throws when `out` is missing; otherwise fills
        `out[0..7]` with the neighbour cells, null where a neighbour lies off
        the grid, and returns `out`. */
    method Neighbors(c: Coord, out: OutArray?<Option<bv16>>) returns (thrown: bool, r: OutArray?<Option<bv16>>)
      requires Valid()
      modifies out
      ensures thrown <==> out == null
      ensures r == out
      ensures out != null ==>
                out.elems == Overwrite(old(out.elems), NeighborCellSlots(Contents, width, height, c))
                && out.packedValue == old(out.packedValue)
    {
      r := out;
      if out == null {
        return true, r;
      }
      thrown := false;
      ghost var slots := NeighborCellSlots(Contents, width, height, c);
      var i := 0;
      while i < |DIRECTIONS|
        invariant 0 <= i <= |DIRECTIONS|
        invariant out.elems == Overwrite(old(out.elems), slots[..i])
        invariant out.packedValue == old(out.packedValue)
      {
        var cell := NeighborCell(c, i);
        assert SetAt(out.elems, i, cell) == Overwrite(old(out.elems), slots[..i + 1]) by {
          OverwriteOneMore(old(out.elems), slots, i);
        }
        out.elems := SetAt(out.elems, i, cell);
        i := i + 1;
      }
      assert slots[..|DIRECTIONS|] == slots;
    }

    /** Slot `i` of `neighbors(coords)`: the cell in direction `i`, or null. */
    method NeighborCell(c: Coord, i: nat) returns (r: Option<bv16>)
      requires Valid() && i < |DIRECTIONS|
      ensures r == NeighborCellAt(Contents, width, height, c, i)
    {
      var d := Cells.Add(c, DIRECTIONS[i]);
      var inside := InBounds(d);
      if inside {
        var v := Peek(d);
        r := Some(v);
      } else {
        r := None;
      }
    }

    /** `neighborCoords(coords)`: the eight neighbour coordinates, null where a
        neighbour lies off the grid. */
    method NeighborCoords(c: Coord) returns (r: seq<Option<Coord>>)
      ensures |r| == |DIRECTIONS|
      ensures forall i :: 0 <= i < |DIRECTIONS| ==>
                (r[i].Some? <==> Inside(width, height, Cells.Add(c, DIRECTIONS[i])))
                && (r[i].Some? ==> r[i].value == Cells.Add(c, DIRECTIONS[i]))
      ensures r == NeighborCoordSlots(width, height, c)
    {
      r := [];
      var i := 0;
      while i < |DIRECTIONS|
        invariant 0 <= i <= |DIRECTIONS|
        invariant r == NeighborCoordSlots(width, height, c)[..i]
      {
        var d := Cells.Add(c, DIRECTIONS[i]);
        var inside := InBounds(d);
        if inside {
          r := r + [Some(d)];
        } else {
          r := r + [None];
        }
        i := i + 1;
      }
    }

    /** `floodFill(start, process)`: the result is the outcome of the traversal
        `FloodFill.Run` once it stops, which `FloodFill.FillOutcome` describes.
        The ghost results are the coordinates the callback was called with and
        the number of loop iterations. */
    method FloodFill(start: Coord, process: Callback) returns (status: int, ghost calls: seq<Coord>, ghost steps: nat)
      ensures var final := Run(width, height, process, Init(start), steps);
        Done(final) && calls == final.calls && status == Outcome(final)
      ensures status == ABORT || status == END
      ensures calls != [] && calls[0] == start
      ensures Bounded(width, height, start, calls)
      ensures status == ABORT <==> exists j :: 0 <= j < |calls| && Verdict(process, calls, j) == ABORT
      ensures status == ABORT ==> Verdict(process, calls, |calls| - 1) == ABORT
      ensures status == END ==> ContinuedClosed(width, height, process, calls)
    {
      var aborted, history;
      aborted, history, steps := FillLoop(start, process);
      status := if aborted then ABORT else END;
      calls := history;
      FillOutcome(width, height, process, start, steps);
    }

    /** The `while (queue.length)` loop of `floodFill`, from the stack holding
        only `start`, until it stops. `steps` counts its iterations. */
    method FillLoop(start: Coord, process: Callback) returns (aborted: bool, history: seq<Coord>, ghost steps: nat)
      ensures var final := Run(width, height, process, Init(start), steps);
        Done(final) && final.calls == history && final.aborted == aborted
    {
      var queue := [start];
      var processed: seq<Coord> := [];
      history := [];
      // The loop leaves by `break` where the source returns ABORT.
      aborted := false;
      steps := 0;
      assert Run(width, height, process, Init(start), 0) == State(queue, processed, history, false);
      // The termination measure: unprocessed coordinates, then processed
      // entries on the stack, then the stack's length.
      ghost var unvisited := Unvisited(width, height, start, processed);
      ghost var revisits := Revisits(queue, processed);
      while |queue| > 0
        invariant !aborted
        invariant State(queue, processed, history, false) == Run(width, height, process, Init(start), steps)
        invariant unvisited == Unvisited(width, height, start, processed)
        invariant revisits == Revisits(queue, processed)
        decreases unvisited, revisits, |queue|
      {
        var status;
        status, queue, processed, history, unvisited, revisits :=
          FillIteration(start, process, steps, queue, processed, history, unvisited, revisits);
        steps := steps + 1;
        if status == ABORT {
          aborted := true;
          break;
        }
      }
    }

    /** One pass of the `floodFill` loop: pop the newest coordinate, ask the
        callback, and unless it answers ABORT or SKIP record the coordinate and
        push its unprocessed neighbours. Run after `steps` passes it gives the
        state after `steps + 1`, and unless it stops it lowers the termination
        measure, whose old and new values are `unvisited, revisits` and
        `unvisited', revisits'`. */
    method FillIteration(start: Coord, process: Callback, ghost steps: nat,
                         queue: seq<Coord>, processed: seq<Coord>, history: seq<Coord>,
                         ghost unvisited: nat, ghost revisits: nat)
      returns (status: int, queue': seq<Coord>, processed': seq<Coord>, history': seq<Coord>,
               ghost unvisited': nat, ghost revisits': nat)
      requires queue != []
      requires State(queue, processed, history, false) == Run(width, height, process, Init(start), steps)
      requires unvisited == Unvisited(width, height, start, processed)
      requires revisits == Revisits(queue, processed)
      ensures State(queue', processed', history', status == ABORT) == Run(width, height, process, Init(start), steps + 1)
      ensures unvisited' == Unvisited(width, height, start, processed')
      ensures revisits' == Revisits(queue', processed')
      ensures status != ABORT ==>
                || unvisited' < unvisited
                || (unvisited' == unvisited && (revisits' < revisits || (revisits' == revisits && |queue'| < |queue|)))
    {
      ghost var st := State(queue, processed, history, false);
      assert Run(width, height, process, Init(start), steps + 1) == Step(width, height, process, st) by {
        RunOneMore(width, height, process, Init(start), steps);
      }
      var current := queue[|queue| - 1];
      queue' := queue[..|queue| - 1];
      status := process(history, current);
      history' := history + [current];
      processed' := processed;
      if status != ABORT && status != SKIP {
        processed' := processed + [current];
        var neighbors := NeighborCoords(current);
        queue' := PushUnprocessed(queue', neighbors, processed');
      }
      assert State(queue', processed', history', status == ABORT) == Step(width, height, process, st);
      unvisited', revisits' := Unvisited(width, height, start, processed'), Revisits(queue', processed');
      if status != ABORT {
        assert Bounded(width, height, start, queue) by {
          RunInv(width, height, process, start, Init(start), steps);
        }
        StepMeasure(width, height, process, start, st);
      }
    }

    /** `flipUpdated(coords)` */
    method FlipUpdated(c: Coord)
      requires Valid() && Inside(width, height, c)
      modifies this, data
      ensures Valid()
      ensures Contents == Cells.Put(old(Contents), width, height, c, At(old(Contents), c) ^ 1)
    {
      var v := Peek(c);
      FlipUpdatedStored(v);
      Put(c, Widen(v) ^ 1);
    }

    /** `flipStatic(coords)` */
    method FlipStatic(c: Coord)
      requires Valid() && Inside(width, height, c)
      modifies this, data
      ensures Valid()
      ensures Contents == Cells.Put(old(Contents), width, height, c, At(old(Contents), c) ^ 2)
    {
      var v := Peek(c);
      FlipStaticStored(v);
      Put(c, Widen(v) ^ 2);
    }
  }

  /** Toggling bit 0 of a cell is `flipUpdated` of its 32-bit value; nothing is
      lost in the store, so the cell's fields are the old ones with only the
      updated flag toggled. */
  lemma FlipUpdatedStored(v: bv16)
    ensures Widen(v ^ 1) == DataTools.FlipUpdated(Widen(v))
    ensures ToUint16(Widen(v) ^ 1) == v ^ 1
  {
  }

  /** The same for bit 1 and the static flag. */
  lemma FlipStaticStored(v: bv16)
    ensures Widen(v ^ 2) == DataTools.FlipStatic(Widen(v))
    ensures ToUint16(Widen(v) ^ 2) == v ^ 2
  {
  }

  /** The inner loop of `floodFill`: pushes every non-null neighbour that is
      not yet processed, in slot order. */
  method PushUnprocessed(queue: seq<Coord>, neighbors: seq<Option<Coord>>, processed: seq<Coord>)
    returns (r: seq<Coord>)
    ensures r == queue + Pushed(neighbors, processed)
  {
    r := queue;
    var i := 0;
    while i < |neighbors|
      invariant 0 <= i <= |neighbors|
      invariant r == queue + PushedUpTo(neighbors, processed, i)
    {
      if neighbors[i].Some? {
        var seen := IsProcessed(neighbors[i].value, processed);
        if !seen {
          r := r + [neighbors[i].value];
        }
      }
      i := i + 1;
    }
  }

  /** `isProcessed(coords)`: a linear search of `processed`. */
  method IsProcessed(c: Coord, processed: seq<Coord>) returns (b: bool)
    ensures b <==> c in processed
  {
    var i := 0;
    while i < |processed|
      invariant 0 <= i <= |processed|
      invariant c !in processed[..i]
    {
      if c.0 == processed[i].0 && c.1 == processed[i].1 {
        return true;
      }
      i := i + 1;
    }
    assert processed[..i] == processed;
    return false;
  }
}
