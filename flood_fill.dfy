/** The traversal behind `grid.floodFill(start, process)` in `client/grid.js`,
    stated one loop iteration at a time: the iteration pops the newest
    coordinate off the stack, asks the callback for a verdict, and either
    stops (ABORT), drops the coordinate (SKIP), or records it as processed and
    pushes every in-bounds neighbour not yet processed (anything else).

    `Grid.FloodFill` in module GridStore runs this loop over local variables;
    its postcondition ties it to `Run` here, and the lemmas here give what the
    traversal guarantees. */
module FloodFill {
  import opened Js
  import opened Cells

  const ABORT := 0
  const PROCESS := 1
  const SKIP := 2
  const END := 3

  /** The `process` callback. Its verdict may depend on what it has been asked
      before, so it is given the coordinates of all its earlier calls, oldest
      first, together with the current one. */
  type Callback = (seq<Coord>, Coord) -> int

  /** The traversal's variables: the stack `queue` (top at the end), the list
      `processed`, every coordinate passed to the callback so far, and whether
      the callback has answered ABORT. */
  datatype State = State(queue: seq<Coord>, processed: seq<Coord>, calls: seq<Coord>, aborted: bool)

  /** The loop starts with only `start` on the stack and nothing processed or
      called, so it runs at least once. */
  function Init(start: Coord): State {
    State([start], [], [], false)
  }

  /** The loop has stopped: by ABORT or because the stack is empty. */
  predicate Done(st: State) {
    st.aborted || st.queue == []
  }

  /** What `floodFill` returns once it has stopped. */
  function Outcome(st: State): (r: int)
    ensures r == ABORT || r == END
    ensures r == ABORT <==> st.aborted
  {
    if st.aborted then ABORT else END
  }

  /** The verdict the callback gave at its `j`-th call. */
  function Verdict(process: Callback, calls: seq<Coord>, j: nat): int
    requires j < |calls|
  {
    process(calls[..j], calls[j])
  }

  /** A verdict that lets the traversal expand the coordinate. */
  predicate Continues(verdict: int) {
    verdict != ABORT && verdict != SKIP
  }

  /** What the inner loop pushes for one neighbour slot. */
  function Kept(slot: Option<Coord>, processed: seq<Coord>): seq<Coord> {
    if slot.Some? && slot.value !in processed then [slot.value] else []
  }

  /** The coordinates the inner loop pushes for the first `k` neighbour slots:
      the non-null ones that are not in `processed`, in slot order. */
  function PushedUpTo(slots: seq<Option<Coord>>, processed: seq<Coord>, k: nat): seq<Coord>
    requires k <= |slots|
    decreases k
  {
    if k == 0 then [] else PushedUpTo(slots, processed, k - 1) + Kept(slots[k - 1], processed)
  }

  /** What the inner loop pushes for all the slots. */
  function Pushed(slots: seq<Option<Coord>>, processed: seq<Coord>): seq<Coord> {
    PushedUpTo(slots, processed, |slots|)
  }

  lemma {:induction false} PushedUpToMembers(slots: seq<Option<Coord>>, processed: seq<Coord>, k: nat)
    requires k <= |slots|
    ensures forall q :: q in PushedUpTo(slots, processed, k) <==> q !in processed && Some(q) in slots[..k]
    decreases k
  {
    if k > 0 {
      PushedUpToMembers(slots, processed, k - 1);
      assert slots[..k] == slots[..k - 1] + [slots[k - 1]];
    }
  }

  /** The inner loop pushes exactly the slots' coordinates that are not yet
      processed. */
  lemma PushedMembers(slots: seq<Option<Coord>>, processed: seq<Coord>)
    ensures forall q :: q in Pushed(slots, processed) <==> q !in processed && Some(q) in slots
  {
    PushedUpToMembers(slots, processed, |slots|);
    assert slots[..|slots|] == slots;
  }

  /** `Pushed` for the eight neighbour slots, written out. */
  lemma PushedEight(s: seq<Option<Coord>>, p: seq<Coord>)
    requires |s| == 8
    ensures Pushed(s, p) == Kept(s[0], p) + Kept(s[1], p) + Kept(s[2], p) + Kept(s[3], p)
                          + Kept(s[4], p) + Kept(s[5], p) + Kept(s[6], p) + Kept(s[7], p)
  {
    assert PushedUpTo(s, p, 1) == Kept(s[0], p);
    assert PushedUpTo(s, p, 2) == PushedUpTo(s, p, 1) + Kept(s[1], p);
    assert PushedUpTo(s, p, 3) == PushedUpTo(s, p, 2) + Kept(s[2], p);
    assert PushedUpTo(s, p, 4) == PushedUpTo(s, p, 3) + Kept(s[3], p);
    assert PushedUpTo(s, p, 5) == PushedUpTo(s, p, 4) + Kept(s[4], p);
    assert PushedUpTo(s, p, 6) == PushedUpTo(s, p, 5) + Kept(s[5], p);
    assert PushedUpTo(s, p, 7) == PushedUpTo(s, p, 6) + Kept(s[6], p);
    assert PushedUpTo(s, p, 8) == PushedUpTo(s, p, 7) + Kept(s[7], p);
  }

  /** One iteration of the `while (queue.length)` loop. */
  function Step(width: nat, height: nat, process: Callback, st: State): (r: State)
    requires !Done(st)
    ensures r.calls == st.calls + [st.queue[|st.queue| - 1]]
    ensures r.aborted <==> process(st.calls, st.queue[|st.queue| - 1]) == ABORT
    ensures !Continues(process(st.calls, st.queue[|st.queue| - 1])) ==>
              r.queue == st.queue[..|st.queue| - 1] && r.processed == st.processed
    ensures Continues(process(st.calls, st.queue[|st.queue| - 1])) ==>
              && r.processed == st.processed + [st.queue[|st.queue| - 1]]
              && |st.queue| - 1 <= |r.queue|
              && r.queue[..|st.queue| - 1] == st.queue[..|st.queue| - 1]
              && forall q :: q in r.queue[|st.queue| - 1..] ==>
                   q !in r.processed && Inside(width, height, q)
  {
    var current := st.queue[|st.queue| - 1];
    var rest := st.queue[..|st.queue| - 1];
    var verdict := process(st.calls, current);
    var calls := st.calls + [current];
    if verdict == ABORT then State(rest, st.processed, calls, true)
    else if verdict == SKIP then State(rest, st.processed, calls, false)
    else
      var processed := st.processed + [current];
      var pushed := Pushed(NeighborCoordSlots(width, height, current), processed);
      PushedMembers(NeighborCoordSlots(width, height, current), processed);
      SlotsInside(width, height, current);
      assert (rest + pushed)[|rest|..] == pushed;
      State(rest + pushed, processed, calls, false)
  }

  /** Every non-null neighbour slot holds an in-bounds coordinate. */
  lemma SlotsInside(width: nat, height: nat, c: Coord)
    ensures forall q :: Some(q) in NeighborCoordSlots(width, height, c) ==> Inside(width, height, q)
  {
    forall q | Some(q) in NeighborCoordSlots(width, height, c)
      ensures Inside(width, height, q)
    {
      var i :| 0 <= i < |DIRECTIONS| && NeighborCoordSlots(width, height, c)[i] == Some(q);
    }
  }

  /** The state after `n` iterations, or after fewer if the loop stops first. */
  function Run(width: nat, height: nat, process: Callback, st: State, n: nat): State
    decreases n
  {
    if n == 0 || Done(st) then st else Run(width, height, process, Step(width, height, process, st), n - 1)
  }

  /** Every iteration that runs makes exactly one call: after `n` iterations
      the call history extends the old one by `n` calls, or by fewer when the
      loop has stopped. */
  lemma {:induction false} RunCalls(width: nat, height: nat, process: Callback, st: State, n: nat)
    ensures var r := Run(width, height, process, st, n);
      && st.calls <= r.calls && |r.calls| <= |st.calls| + n
      && (Done(r) || |r.calls| == |st.calls| + n)
    decreases n
  {
    if n > 0 && !Done(st) {
      var next := Step(width, height, process, st);
      RunUnfold(width, height, process, st, n);
      RunCalls(width, height, process, next, n - 1);
      var r := Run(width, height, process, next, n - 1);
      assert r.calls[..|st.calls|] == next.calls[..|st.calls|] == st.calls;
    }
  }

  lemma {:induction false} RunOneMore(width: nat, height: nat, process: Callback, st: State, n: nat)
    requires !Done(Run(width, height, process, st, n))
    ensures Run(width, height, process, st, n + 1)
         == Step(width, height, process, Run(width, height, process, st, n))
    decreases n
  {
    if n > 0 {
      RunOneMore(width, height, process, Step(width, height, process, st), n - 1);
    }
  }

  lemma RunUnfold(width: nat, height: nat, process: Callback, st: State, n: nat)
    requires 0 < n && !Done(st)
    ensures Run(width, height, process, st, n) == Run(width, height, process, Step(width, height, process, st), n - 1)
  {
  }

  /** The calls whose verdict let the traversal expand the coordinate, in order. */
  function Continued(process: Callback, calls: seq<Coord>): (r: seq<Coord>)
    ensures forall c :: c in r ==> c in calls
  {
    if calls == [] then []
    else
      var j := |calls| - 1;
      Continued(process, calls[..j])
      + (if Continues(Verdict(process, calls, j)) then [calls[j]] else [])
  }

  /** Appending a call leaves the verdicts of the earlier calls unchanged. */
  lemma VerdictsKept(process: Callback, calls: seq<Coord>, c: Coord)
    ensures forall j :: 0 <= j < |calls| ==> Verdict(process, calls + [c], j) == Verdict(process, calls, j)
    ensures Verdict(process, calls + [c], |calls|) == process(calls, c)
  {
    forall j | 0 <= j < |calls|
      ensures Verdict(process, calls + [c], j) == Verdict(process, calls, j)
    {
      assert (calls + [c])[..j] == calls[..j];
    }
    assert (calls + [c])[..|calls|] == calls;
  }

  lemma ContinuedAppend(process: Callback, calls: seq<Coord>, c: Coord)
    ensures Continued(process, calls + [c])
         == Continued(process, calls)
            + (if Continues(process(calls, c)) then [c] else [])
  {
    assert (calls + [c])[..|calls|] == calls;
  }

  /** Every expanded call is in `Continued`. */
  lemma {:induction false} ContinuedHas(process: Callback, calls: seq<Coord>, j: nat)
    requires j < |calls| && Continues(Verdict(process, calls, j))
    ensures calls[j] in Continued(process, calls)
    decreases |calls|
  {
    var k := |calls| - 1;
    if j < k {
      assert calls[..k][..j] == calls[..j];
      ContinuedHas(process, calls[..k], j);
    }
  }

  /** Every coordinate in `s` is the start or in bounds. */
  ghost predicate Bounded(width: nat, height: nat, start: Coord, s: seq<Coord>) {
    forall q :: q in s ==> q == start || Inside(width, height, q)
  }

  /** Only the last call can have answered ABORT, and it did exactly when the
      loop stopped by ABORT. */
  ghost predicate AbortOnlyLast(process: Callback, calls: seq<Coord>, aborted: bool) {
    && (forall j :: 0 <= j < |calls| - 1 ==> Verdict(process, calls, j) != ABORT)
    && (calls != [] ==> (aborted <==> Verdict(process, calls, |calls| - 1) == ABORT))
    && (calls == [] ==> !aborted)
  }

  /** Every in-bounds neighbour of a processed coordinate is in `seen`. */
  ghost predicate Closed(width: nat, height: nat, processed: seq<Coord>, seen: seq<Coord>) {
    forall p, i :: p in processed && 0 <= i < |DIRECTIONS| && NeighborCoordAt(width, height, p, i).Some? ==>
      NeighborCoordAt(width, height, p, i).value in seen
  }

  /** What holds of every state the loop reaches from `Init(start)`. */
  ghost predicate Inv(width: nat, height: nat, process: Callback, start: Coord, st: State) {
    && Bounded(width, height, start, st.queue)
    && Bounded(width, height, start, st.calls)
    && (st.calls == [] ==> st.queue == [start] && st.processed == [])
    && (st.calls != [] ==> st.calls[0] == start)
    // `processed` is exactly the calls that were expanded
    && st.processed == Continued(process, st.calls)
    && AbortOnlyLast(process, st.calls, st.aborted)
    // each in-bounds neighbour of a processed coordinate was called or is waiting
    && Closed(width, height, st.processed, st.calls + st.queue)
  }

  lemma InitInv(width: nat, height: nat, process: Callback, start: Coord)
    ensures Inv(width, height, process, start, Init(start))
  {
  }

  lemma StepBounded(width: nat, height: nat, process: Callback, start: Coord, st: State)
    requires !Done(st)
    requires Bounded(width, height, start, st.queue) && Bounded(width, height, start, st.calls)
    ensures var r := Step(width, height, process, st);
      Bounded(width, height, start, r.queue) && Bounded(width, height, start, r.calls)
  {
    var r := Step(width, height, process, st);
    var k := |st.queue| - 1;
    assert st.queue[k] in st.queue;
    assert forall q :: q in st.queue[..k] ==> q in st.queue;
    if Continues(process(st.calls, st.queue[k])) {
      assert r.queue == r.queue[..k] + r.queue[k..];
    }
  }

  lemma StepAbortOnlyLast(width: nat, height: nat, process: Callback, st: State)
    requires !Done(st) && AbortOnlyLast(process, st.calls, st.aborted)
    ensures var r := Step(width, height, process, st);
      AbortOnlyLast(process, r.calls, r.aborted)
  {
    VerdictsKept(process, st.calls, st.queue[|st.queue| - 1]);
  }

  lemma StepClosed(width: nat, height: nat, process: Callback, st: State)
    requires !Done(st)
    requires forall p :: p in st.processed ==> p in st.calls
    requires Closed(width, height, st.processed, st.calls + st.queue)
    ensures var r := Step(width, height, process, st);
      Closed(width, height, r.processed, r.calls + r.queue)
  {
    var r := Step(width, height, process, st);
    var current := st.queue[|st.queue| - 1];
    var rest := st.queue[..|st.queue| - 1];
    assert st.queue == rest + [current];
    if Continues(process(st.calls, current)) {
      var slots := NeighborCoordSlots(width, height, current);
      var pushed := Pushed(slots, r.processed);
      assert r.queue == rest + pushed;
      PushedMembers(slots, r.processed);
      forall p, i | p in r.processed && 0 <= i < |DIRECTIONS| && NeighborCoordAt(width, height, p, i).Some?
        ensures NeighborCoordAt(width, height, p, i).value in r.calls + r.queue
      {
        var n := NeighborCoordAt(width, height, p, i).value;
        if p == current {
          assert slots[i] == Some(n);
          if n in r.processed {
            assert n == current || n in st.calls;
          } else {
            assert n in pushed;
          }
        } else {
          assert p in st.processed;
          assert n in st.calls + st.queue;
        }
      }
    } else {
      assert forall q :: q in st.calls + st.queue ==> q in r.calls + r.queue;
    }
  }

  lemma StepInv(width: nat, height: nat, process: Callback, start: Coord, st: State)
    requires Inv(width, height, process, start, st) && !Done(st)
    ensures Inv(width, height, process, start, Step(width, height, process, st))
  {
    var current := st.queue[|st.queue| - 1];
    ContinuedAppend(process, st.calls, current);
    StepBounded(width, height, process, start, st);
    StepAbortOnlyLast(width, height, process, st);
    StepClosed(width, height, process, st);
    if st.calls == [] {
      assert current == start;
    }
  }

  /** A property that every iteration preserves holds after any number of
      iterations. */
  lemma {:induction false} RunKeeps(width: nat, height: nat, process: Callback, P: State -> bool, st: State, n: nat)
    requires P(st)
    requires forall s :: P(s) && !Done(s) ==> P(Step(width, height, process, s))
    ensures P(Run(width, height, process, st, n))
    decreases n
  {
    if n > 0 && !Done(st) {
      RunKeeps(width, height, process, P, Step(width, height, process, st), n - 1);
    }
  }

  lemma RunInv(width: nat, height: nat, process: Callback, start: Coord, st: State, n: nat)
    requires Inv(width, height, process, start, st)
    ensures Inv(width, height, process, start, Run(width, height, process, st, n))
  {
    forall s | Inv(width, height, process, start, s) && !Done(s)
      ensures Inv(width, height, process, start, Step(width, height, process, s))
    {
      StepInv(width, height, process, start, s);
    }
    RunKeeps(width, height, process, s => Inv(width, height, process, start, s), st, n);
  }

  /** Every in-bounds neighbour of every expanded call was itself a call. */
  ghost predicate ContinuedClosed(width: nat, height: nat, process: Callback, calls: seq<Coord>) {
    forall j, i :: 0 <= j < |calls| && Continues(Verdict(process, calls, j))
                   && 0 <= i < |DIRECTIONS| && NeighborCoordAt(width, height, calls[j], i).Some? ==>
      NeighborCoordAt(width, height, calls[j], i).value in calls
  }

  /** Once the traversal has stopped: the result is ABORT exactly when some call
      answered ABORT, and that call was the last one; otherwise, every in-bounds
      neighbour of every expanded coordinate was passed to the callback. */
  lemma DoneFacts(width: nat, height: nat, process: Callback, start: Coord, st: State)
    requires Inv(width, height, process, start, st) && Done(st)
    ensures Outcome(st) == ABORT || Outcome(st) == END
    ensures st.calls != [] && st.calls[0] == start
    ensures Outcome(st) == ABORT <==>
              exists j :: 0 <= j < |st.calls| && Verdict(process, st.calls, j) == ABORT
    ensures Outcome(st) == ABORT ==> Verdict(process, st.calls, |st.calls| - 1) == ABORT
    ensures Outcome(st) == END ==> ContinuedClosed(width, height, process, st.calls)
  {
    if !st.aborted {
      assert st.queue == [];
      forall j, i | 0 <= j < |st.calls| && Continues(Verdict(process, st.calls, j))
                    && 0 <= i < |DIRECTIONS| && NeighborCoordAt(width, height, st.calls[j], i).Some?
        ensures NeighborCoordAt(width, height, st.calls[j], i).value in st.calls
      {
        ContinuedHas(process, st.calls, j);
        assert st.calls + st.queue == st.calls;
      }
    }
  }

  /** What `floodFill` guarantees once its loop has stopped after `n`
      iterations. */
  lemma FillOutcome(width: nat, height: nat, process: Callback, start: Coord, n: nat)
    requires Done(Run(width, height, process, Init(start), n))
    ensures var st := Run(width, height, process, Init(start), n);
      && (Outcome(st) == ABORT || Outcome(st) == END)
      && st.calls != [] && st.calls[0] == start
      && Bounded(width, height, start, st.calls)
      && (Outcome(st) == ABORT <==> exists j :: 0 <= j < |st.calls| && Verdict(process, st.calls, j) == ABORT)
      && (Outcome(st) == ABORT ==> Verdict(process, st.calls, |st.calls| - 1) == ABORT)
      && (Outcome(st) == END ==> ContinuedClosed(width, height, process, st.calls))
  {
    InitInv(width, height, process, start);
    RunInv(width, height, process, start, Init(start), n);
    DoneFacts(width, height, process, start, Run(width, height, process, Init(start), n));
  }

  // Termination. Three measures, compared lexicographically, shrink at every
  // iteration that does not stop the loop: the coordinates not yet processed,
  // the stack entries that are already processed, and the stack's length.

  function Universe(width: nat, height: nat, start: Coord): set<Coord> {
    (set x, y | 0 <= x < width && 0 <= y < height :: (x, y)) + {start}
  }

  lemma InUniverse(width: nat, height: nat, start: Coord, c: Coord)
    requires c == start || Inside(width, height, c)
    ensures c in Universe(width, height, start)
  {
    if c != start {
      var (x, y) := c;
      assert (x, y) in (set x, y | 0 <= x < width && 0 <= y < height :: (x, y));
    }
  }

  function Seen(processed: seq<Coord>): set<Coord> {
    set p | p in processed
  }

  lemma SeenAdd(processed: seq<Coord>, c: Coord)
    ensures Seen(processed + [c]) == Seen(processed) + {c}
  {
  }

  lemma CardRemove(u: set<Coord>, seen: set<Coord>, c: Coord)
    requires c in u && c !in seen
    ensures |u - (seen + {c})| < |u - seen|
  {
    assert u - seen == (u - (seen + {c})) + {c};
  }

  function Unvisited(width: nat, height: nat, start: Coord, processed: seq<Coord>): nat {
    |Universe(width, height, start) - Seen(processed)|
  }

  function Revisits(queue: seq<Coord>, processed: seq<Coord>): nat {
    if queue == [] then 0
    else Revisits(queue[..|queue| - 1], processed) + (if queue[|queue| - 1] in processed then 1 else 0)
  }

  lemma {:induction false} RevisitsAppend(a: seq<Coord>, b: seq<Coord>, processed: seq<Coord>)
    ensures Revisits(a + b, processed) == Revisits(a, processed) + Revisits(b, processed)
    decreases |b|
  {
    if b == [] {
      assert a + b == a;
    } else {
      var k := |b| - 1;
      assert (a + b)[..|a + b| - 1] == a + b[..k];
      RevisitsAppend(a, b[..k], processed);
    }
  }

  lemma {:induction false} RevisitsNone(b: seq<Coord>, processed: seq<Coord>)
    requires forall q :: q in b ==> q !in processed
    ensures Revisits(b, processed) == 0
    decreases |b|
  {
    if b != [] {
      RevisitsNone(b[..|b| - 1], processed);
    }
  }

  lemma {:induction false} RevisitsSameSet(b: seq<Coord>, p1: seq<Coord>, p2: seq<Coord>)
    requires forall q :: q in p1 <==> q in p2
    ensures Revisits(b, p1) == Revisits(b, p2)
    decreases |b|
  {
    if b != [] {
      RevisitsSameSet(b[..|b| - 1], p1, p2);
    }
  }

  /** Processing a coordinate of the universe for the first time shrinks the
      unvisited count; processing one again leaves it as it was. */
  lemma UnvisitedAdd(width: nat, height: nat, start: Coord, processed: seq<Coord>, c: Coord)
    requires c == start || Inside(width, height, c)
    ensures c !in processed ==>
              Unvisited(width, height, start, processed + [c]) < Unvisited(width, height, start, processed)
    ensures c in processed ==>
              Unvisited(width, height, start, processed + [c]) == Unvisited(width, height, start, processed)
  {
    SeenAdd(processed, c);
    if c !in processed {
      InUniverse(width, height, start, c);
      CardRemove(Universe(width, height, start), Seen(processed), c);
    } else {
      assert Seen(processed + [c]) == Seen(processed);
    }
  }

  lemma StepMeasure(width: nat, height: nat, process: Callback, start: Coord, st: State)
    requires !Done(st) && Bounded(width, height, start, st.queue)
    requires !Step(width, height, process, st).aborted
    ensures var r := Step(width, height, process, st);
      || Unvisited(width, height, start, r.processed) < Unvisited(width, height, start, st.processed)
      || (&& Unvisited(width, height, start, r.processed) == Unvisited(width, height, start, st.processed)
          && (|| Revisits(r.queue, r.processed) < Revisits(st.queue, st.processed)
              || (&& Revisits(r.queue, r.processed) == Revisits(st.queue, st.processed)
                  && |r.queue| < |st.queue|)))
  {
    var r := Step(width, height, process, st);
    var current := st.queue[|st.queue| - 1];
    var rest := st.queue[..|st.queue| - 1];
    if Continues(process(st.calls, current)) {
      assert current in st.queue;
      UnvisitedAdd(width, height, start, st.processed, current);
      if current in st.processed {
        assert Revisits(st.queue, st.processed) == Revisits(rest, st.processed) + 1;
        assert Revisits(r.queue, r.processed) == Revisits(rest, st.processed) by {
          var pushed := r.queue[|rest|..];
          assert r.queue == rest + pushed;
          RevisitsAppend(rest, pushed, r.processed);
          RevisitsNone(pushed, r.processed);
          RevisitsSameSet(rest, st.processed, r.processed);
        }
      }
    }
  }

  // The as-written traversal checks `processed` only when it pushes, so a
  // coordinate pushed twice before it is first popped is also expanded twice.

  const ALWAYS_CONTINUE: Callback := (calls: seq<Coord>, c: Coord) => PROCESS

  // The states of that run on a 2 x 2 grid from (0, 0).
  const S1 := State([(1, 0), (1, 1), (0, 1)], [(0, 0)], [(0, 0)], false)
  const S2 := State([(1, 0), (1, 1), (1, 0), (1, 1)], [(0, 0), (0, 1)], [(0, 0), (0, 1)], false)
  const S3 := State([(1, 0), (1, 1), (1, 0), (1, 0)], [(0, 0), (0, 1), (1, 1)], [(0, 0), (0, 1), (1, 1)], false)
  const S4 := State([(1, 0), (1, 1), (1, 0)], [(0, 0), (0, 1), (1, 1), (1, 0)],
                    [(0, 0), (0, 1), (1, 1), (1, 0)], false)
  const S5 := State([(1, 0), (1, 1)], [(0, 0), (0, 1), (1, 1), (1, 0), (1, 0)],
                    [(0, 0), (0, 1), (1, 1), (1, 0), (1, 0)], false)

  /** An iteration whose callback continues pops `current`, records it, and
      pushes `pushed`. */
  lemma ExpandStep(width: nat, height: nat, process: Callback, st: State,
                   rest: seq<Coord>, current: Coord, pushed: seq<Coord>)
    requires st.queue == rest + [current] && !st.aborted
    requires Continues(process(st.calls, current))
    requires Pushed(NeighborCoordSlots(width, height, current), st.processed + [current]) == pushed
    ensures Step(width, height, process, st) == State(rest + pushed, st.processed + [current], st.calls + [current], false)
  {
    assert st.queue[..|st.queue| - 1] == rest;
  }

  // The neighbour slots of the four cells of the 2 x 2 grid.

  lemma Slots00()
    ensures NeighborCoordSlots(2, 2, (0, 0)) == [None, None, None, Some((1, 0)), Some((1, 1)), Some((0, 1)), None, None]
  {
    var slots := NeighborCoordSlots(2, 2, (0, 0));
    assert slots == [None, None, None, Some((1, 0)), Some((1, 1)), Some((0, 1)), None, None];
  }

  lemma Slots01()
    ensures NeighborCoordSlots(2, 2, (0, 1)) == [None, Some((0, 0)), Some((1, 0)), Some((1, 1)), None, None, None, None]
  {
    var slots := NeighborCoordSlots(2, 2, (0, 1));
    assert slots == [None, Some((0, 0)), Some((1, 0)), Some((1, 1)), None, None, None, None];
  }

  lemma Slots11()
    ensures NeighborCoordSlots(2, 2, (1, 1)) == [Some((0, 0)), Some((1, 0)), None, None, None, None, None, Some((0, 1))]
  {
    var slots := NeighborCoordSlots(2, 2, (1, 1));
    assert slots == [Some((0, 0)), Some((1, 0)), None, None, None, None, None, Some((0, 1))];
  }

  lemma Slots10()
    ensures NeighborCoordSlots(2, 2, (1, 0)) == [None, None, None, None, None, Some((1, 1)), Some((0, 1)), Some((0, 0))]
  {
    var slots := NeighborCoordSlots(2, 2, (1, 0));
    assert slots == [None, None, None, None, None, Some((1, 1)), Some((0, 1)), Some((0, 0))];
  }

  lemma FirstPushed()
    ensures Pushed(NeighborCoordSlots(2, 2, (0, 0)), [(0, 0)]) == [(1, 0), (1, 1), (0, 1)]
  {
    Slots00();
    PushedEight([None, None, None, Some((1, 0)), Some((1, 1)), Some((0, 1)), None, None], [(0, 0)]);
  }

  lemma FirstStep()
    ensures Step(2, 2, ALWAYS_CONTINUE, Init((0, 0))) == S1
  {
    FirstPushed();
    assert Init((0, 0)).processed + [(0, 0)] == [(0, 0)];
    ExpandStep(2, 2, ALWAYS_CONTINUE, Init((0, 0)), [], (0, 0), [(1, 0), (1, 1), (0, 1)]);
  }

  lemma SecondPushed()
    ensures Pushed(NeighborCoordSlots(2, 2, (0, 1)), S1.processed + [(0, 1)]) == [(1, 0), (1, 1)]
  {
    Slots01();
    PushedEight([None, Some((0, 0)), Some((1, 0)), Some((1, 1)), None, None, None, None], S1.processed + [(0, 1)]);
  }

  lemma SecondStep()
    ensures Step(2, 2, ALWAYS_CONTINUE, S1) == S2
  {
    SecondPushed();
    ExpandStep(2, 2, ALWAYS_CONTINUE, S1, [(1, 0), (1, 1)], (0, 1), [(1, 0), (1, 1)]);
  }

  lemma ThirdPushed()
    ensures Pushed(NeighborCoordSlots(2, 2, (1, 1)), S2.processed + [(1, 1)]) == [(1, 0)]
  {
    Slots11();
    PushedEight([Some((0, 0)), Some((1, 0)), None, None, None, None, None, Some((0, 1))], S2.processed + [(1, 1)]);
  }

  lemma ThirdStep()
    ensures Step(2, 2, ALWAYS_CONTINUE, S2) == S3
  {
    ThirdPushed();
    ExpandStep(2, 2, ALWAYS_CONTINUE, S2, [(1, 0), (1, 1), (1, 0)], (1, 1), [(1, 0)]);
  }

  lemma FourthPushed()
    ensures Pushed(NeighborCoordSlots(2, 2, (1, 0)), S3.processed + [(1, 0)]) == []
  {
    Slots10();
    PushedEight([None, None, None, None, None, Some((1, 1)), Some((0, 1)), Some((0, 0))], S3.processed + [(1, 0)]);
  }

  lemma FourthStep()
    ensures Step(2, 2, ALWAYS_CONTINUE, S3) == S4
  {
    FourthPushed();
    ExpandStep(2, 2, ALWAYS_CONTINUE, S3, [(1, 0), (1, 1), (1, 0)], (1, 0), []);
  }

  lemma FifthPushed()
    ensures Pushed(NeighborCoordSlots(2, 2, (1, 0)), S4.processed + [(1, 0)]) == []
  {
    Slots10();
    PushedEight([None, None, None, None, None, Some((1, 1)), Some((0, 1)), Some((0, 0))], S4.processed + [(1, 0)]);
  }

  lemma FifthStep()
    ensures Step(2, 2, ALWAYS_CONTINUE, S4) == S5
  {
    FifthPushed();
    ExpandStep(2, 2, ALWAYS_CONTINUE, S4, [(1, 0), (1, 1)], (1, 0), []);
  }

  lemma FiveSteps()
    ensures Run(2, 2, ALWAYS_CONTINUE, Init((0, 0)), 5) == S5
  {
    var p := ALWAYS_CONTINUE;
    FirstStep();
    SecondStep();
    ThirdStep();
    FourthStep();
    FifthStep();
    RunUnfold(2, 2, p, Init((0, 0)), 5);
    RunUnfold(2, 2, p, S1, 4);
    RunUnfold(2, 2, p, S2, 3);
    RunUnfold(2, 2, p, S3, 2);
    RunUnfold(2, 2, p, S4, 1);
  }

  /** On a 2 x 2 grid, from (0, 0), with a callback that always continues, the
      fifth call repeats the fourth: (1, 0) is expanded twice. */
  lemma RepeatedExpansion()
    ensures var st := Run(2, 2, ALWAYS_CONTINUE, Init((0, 0)), 5);
      && |st.calls| == 5 && st.calls[3] == st.calls[4] == (1, 0)
      && Continues(Verdict(ALWAYS_CONTINUE, st.calls, 3))
      && st.processed == [(0, 0), (0, 1), (1, 1), (1, 0), (1, 0)]
  {
    FiveSteps();
  }

  // The evidently intended traversal never expands a coordinate twice: it
  // skips, without asking the callback, a popped coordinate that is already
  // processed.

  /** One iteration of the corrected loop. */
  function CheckedStep(width: nat, height: nat, process: Callback, st: State): (r: State)
    requires !Done(st)
    ensures st.queue[|st.queue| - 1] in st.processed ==>
              && r.queue == st.queue[..|st.queue| - 1]
              && r.calls == st.calls && r.processed == st.processed && !r.aborted
    ensures st.queue[|st.queue| - 1] !in st.processed ==> r == Step(width, height, process, st)
  {
    var current := st.queue[|st.queue| - 1];
    if current in st.processed then st.(queue := st.queue[..|st.queue| - 1])
    else Step(width, height, process, st)
  }

  function CheckedRun(width: nat, height: nat, process: Callback, st: State, n: nat): (r: State)
    ensures st.calls <= r.calls && |r.calls| <= |st.calls| + n
    decreases n
  {
    if n == 0 || Done(st) then st
    else CheckedRun(width, height, process, CheckedStep(width, height, process, st), n - 1)
  }

  predicate NoDuplicates(s: seq<Coord>) {
    forall i, j :: 0 <= i < j < |s| ==> s[i] != s[j]
  }

  /** Only a coordinate the callback SKIPped is ever offered to it again. */
  ghost predicate OnlySkippedRepeat(process: Callback, calls: seq<Coord>) {
    forall i, j :: 0 <= i < j < |calls| && calls[i] == calls[j] ==> Verdict(process, calls, i) == SKIP
  }

  ghost predicate CheckedInv(width: nat, height: nat, process: Callback, start: Coord, st: State) {
    && st.processed == Continued(process, st.calls)
    && NoDuplicates(st.processed)
    && OnlySkippedRepeat(process, st.calls)
    && AbortOnlyLast(process, st.calls, st.aborted)
  }

  /** A new call on a coordinate that is not processed repeats only SKIPped
      calls, as long as no call has answered ABORT. */
  lemma RepeatAfterSkipOnly(process: Callback, calls: seq<Coord>, c: Coord)
    requires c !in Continued(process, calls)
    requires OnlySkippedRepeat(process, calls) && AbortOnlyLast(process, calls, false)
    ensures OnlySkippedRepeat(process, calls + [c])
  {
    var r := calls + [c];
    VerdictsKept(process, calls, c);
    forall i, j | 0 <= i < j < |r| && r[i] == r[j]
      ensures Verdict(process, r, i) == SKIP
    {
      if j == |calls| {
        assert Verdict(process, calls, i) != ABORT;
        if Continues(Verdict(process, calls, i)) {
          ContinuedHas(process, calls, i);
        }
      } else {
        assert r[i] == calls[i] && r[j] == calls[j];
      }
    }
  }

  lemma CheckedStepInv(width: nat, height: nat, process: Callback, start: Coord, st: State)
    requires CheckedInv(width, height, process, start, st) && !Done(st)
    ensures CheckedInv(width, height, process, start, CheckedStep(width, height, process, st))
  {
    var current := st.queue[|st.queue| - 1];
    if current !in st.processed {
      var r := Step(width, height, process, st);
      ContinuedAppend(process, st.calls, current);
      StepAbortOnlyLast(width, height, process, st);
      RepeatAfterSkipOnly(process, st.calls, current);
      if Continues(process(st.calls, current)) {
        NoDuplicatesAppend(st.processed, current);
      }
    }
  }

  lemma NoDuplicatesAppend(s: seq<Coord>, c: Coord)
    requires NoDuplicates(s) && c !in s
    ensures NoDuplicates(s + [c])
  {
  }

  /** Every state of the corrected traversal processes each coordinate at most
      once and repeats only SKIPped calls. */
  lemma {:induction false} CheckedRunNoRepeat(width: nat, height: nat, process: Callback, start: Coord, n: nat)
    ensures var st := CheckedRun(width, height, process, Init(start), n);
      NoDuplicates(st.processed) && OnlySkippedRepeat(process, st.calls)
  {
    CheckedRunInv(width, height, process, start, Init(start), n);
  }

  lemma {:induction false} CheckedRunInv(width: nat, height: nat, process: Callback, start: Coord, st: State, n: nat)
    requires CheckedInv(width, height, process, start, st)
    ensures CheckedInv(width, height, process, start, CheckedRun(width, height, process, st, n))
    decreases n
  {
    if n > 0 && !Done(st) {
      CheckedStepInv(width, height, process, start, st);
      CheckedRunInv(width, height, process, start, CheckedStep(width, height, process, st), n - 1);
    }
  }
}
