/** The keyboard tracker of `client/input/Keyboard.js`: which keys are held,
    which held keys have already been reported as "first down", and the key
    codes whose browser default action is suppressed. */
module KeyboardInput {
  import opened Js

  datatype EventKind = KeyDown | KeyUp

  /** A `keydown` or `keyup` event for key code `which`. */
  datatype KeyEvent = KeyEvent(kind: EventKind, which: int)

  /** `_keyState`, `_firstChecked` and `_preventDefaultOn`. A key absent from
      a dictionary reads as `undefined`. */
  datatype State = State(keyState: map<int, bool>, firstChecked: map<int, bool>, preventDefaultOn: seq<int>)

  /** `!!_keyState[k]` */
  predicate Down(st: State, k: int) {
    k in st.keyState && st.keyState[k]
  }

  /** `_firstChecked[k]` is truthy. */
  predicate Checked(st: State, k: int) {
    k in st.firstChecked && st.firstChecked[k]
  }

  /** The state the constructor sets up; `tab` is `Keyboard.Keymap.TAB`. */
  function Initial(tab: int): State {
    State(map[], map[], [tab])
  }

  /** `isKeyFirstDown(k)`: the answer and the state after it. */
  function FirstDown(st: State, k: int): (r: (bool, State))
    ensures r.0 <==> Down(st, k) && !Checked(st, k)
    ensures r.1.keyState == st.keyState && r.1.preventDefaultOn == st.preventDefaultOn
    ensures Checked(r.1, k) <==> Checked(st, k) || Down(st, k)
    ensures forall q :: q != k ==> (Checked(r.1, q) <==> Checked(st, q))
  {
    if !Down(st, k) || Checked(st, k) then (false, st)
    else (true, st.(firstChecked := st.firstChecked[k := true]))
  }

  /** `_handleInput(e)`: the state after it, and whether it calls
      `preventDefault`. */
  function Handle(st: State, e: KeyEvent): (r: (State, bool))
    ensures Down(r.0, e.which) <==> e.kind == KeyDown
    ensures e.kind == KeyUp ==> !Checked(r.0, e.which)
    ensures e.kind == KeyDown ==> (Checked(r.0, e.which) <==> Checked(st, e.which))
    ensures forall q :: q != e.which ==> (Down(r.0, q) <==> Down(st, q))
    ensures forall q :: q != e.which ==> (Checked(r.0, q) <==> Checked(st, q))
    ensures r.1 <==> e.which in st.preventDefaultOn
  {
    var keys := st.keyState[e.which := e.kind == KeyDown];
    var checked := if e.kind == KeyUp then st.firstChecked - {e.which} else st.firstChecked;
    (State(keys, checked, st.preventDefaultOn), e.which in st.preventDefaultOn)
  }

  /** Initially no key is down and none has been reported, and only TAB has
      its default suppressed. */
  lemma InitialState(tab: int)
    ensures forall k :: !Down(Initial(tab), k) && !Checked(Initial(tab), k)
    ensures forall k :: k in Initial(tab).preventDefaultOn <==> k == tab
  {
  }

  /** A key that is not down is never first down, and asking changes nothing. */
  lemma NotDownNoChange(st: State, k: int)
    requires !Down(st, k)
    ensures FirstDown(st, k) == (false, st)
  {
  }

  /** The first query while a key is held reports it; the next one does not. */
  lemma FirstDownThenNot(st: State, k: int)
    requires Down(st, k) && !Checked(st, k)
    ensures FirstDown(st, k).0
    ensures !FirstDown(FirstDown(st, k).1, k).0
  {
  }

  /** `preventDefault` is requested exactly for the listed key codes, and the
      list is never changed. */
  lemma PreventDefaultExactly(st: State, e: KeyEvent)
    ensures Handle(st, e).1 <==> e.which in st.preventDefaultOn
    ensures Handle(st, e).0.preventDefaultOn == st.preventDefaultOn
  {
  }

  /** A release followed by a press makes the key first down again, whatever
      was reported before. */
  lemma PressAfterRelease(st: State, k: int)
    ensures var released := Handle(st, KeyEvent(KeyUp, k)).0;
            var pressed := Handle(released, KeyEvent(KeyDown, k)).0;
            FirstDown(pressed, k).0
  {
  }

  /** What the rest of the program does with the tracker: an input event, or
      a first-down query. */
  datatype Action = Input(e: KeyEvent) | Query(key: int)

  /** The state after a sequence of actions. */
  function Run(st: State, acts: seq<Action>): (r: State)
    ensures r.preventDefaultOn == st.preventDefaultOn
    decreases |acts|
  {
    if acts == [] then st
    else
      var next := match acts[0]
                  case Input(e) => Handle(st, e).0
                  case Query(k) => FirstDown(st, k).1;
      Run(next, acts[1..])
  }

  /** How many queries for `k` in `acts` are answered true. */
  function Reports(st: State, acts: seq<Action>, k: int): (r: nat)
    ensures r <= |acts|
    decreases |acts|
  {
    if acts == [] then 0
    else
      match acts[0]
      case Input(e) => Reports(Handle(st, e).0, acts[1..], k)
      case Query(q) =>
        (if q == k && FirstDown(st, k).0 then 1 else 0) + Reports(FirstDown(st, q).1, acts[1..], k)
  }

  /** `acts` holds no release of key `k`. */
  predicate Held(acts: seq<Action>, k: int) {
    forall i :: 0 <= i < |acts| ==> acts[i] != Input(KeyEvent(KeyUp, k))
  }

  /** While a key is not released, `isKeyFirstDown` reports it at most once,
      and not at all once it has been reported. */
  lemma {:induction false} FirstDownOncePerPress(st: State, acts: seq<Action>, k: int)
    requires Held(acts, k)
    ensures Reports(st, acts, k) <= 1
    ensures Checked(st, k) ==> Reports(st, acts, k) == 0
    decreases |acts|
  {
    if acts != [] {
      assert Held(acts[1..], k) by {
        forall i | 0 <= i < |acts[1..]|
          ensures acts[1..][i] != Input(KeyEvent(KeyUp, k))
        {
          assert acts[1..][i] == acts[i + 1];
        }
      }
      match acts[0]
      case Input(e) =>
        var next := Handle(st, e).0;
        assert Checked(st, k) ==> Checked(next, k);
        FirstDownOncePerPress(next, acts[1..], k);
      case Query(q) =>
        var next := FirstDown(st, q).1;
        FirstDownOncePerPress(next, acts[1..], k);
        if q == k && FirstDown(st, k).0 {
          assert Checked(next, k);
        } else {
          assert Checked(st, k) ==> Checked(next, k);
        }
    }
  }

  /** The kind of the last event for key `k` in `acts`, if there is one. */
  function LastEvent(acts: seq<Action>, k: int): Option<EventKind>
    decreases |acts|
  {
    if acts == [] then None
    else
      var last := acts[|acts| - 1];
      if last.Input? && last.e.which == k then Some(last.e.kind)
      else LastEvent(acts[..|acts| - 1], k)
  }

  /** Running one more action extends the run. */
  lemma RunSnoc(st: State, acts: seq<Action>, a: Action)
    ensures Run(st, acts + [a]) == Run(Run(st, acts), [a])
    decreases |acts|
  {
    if acts != [] {
      assert (acts + [a])[1..] == acts[1..] + [a];
    }
  }

  /** `isKeyDown(k)` holds exactly when the last event seen for `k` was a
      `keydown` (or, with no event for `k`, when `k` was down to begin with). */
  lemma {:induction false} DownIffLastKeyDown(st: State, acts: seq<Action>, k: int)
    ensures Down(Run(st, acts), k) <==>
              if LastEvent(acts, k).Some? then LastEvent(acts, k).value == KeyDown else Down(st, k)
    decreases |acts|
  {
    if acts != [] {
      var init := acts[..|acts| - 1];
      var last := acts[|acts| - 1];
      assert acts == init + [last];
      RunSnoc(st, init, last);
      DownIffLastKeyDown(st, init, k);
    }
  }

  /** The tracker object. */
  class Keyboard {
    var keyState: map<int, bool>
    var firstChecked: map<int, bool>
    var preventDefaultOn: seq<int>

    ghost function Snapshot(): State
      reads this
    {
      State(keyState, firstChecked, preventDefaultOn)
    }

    /** `new Keyboard(el)`, with TAB given as `tab`; the listener hookup is not
        modelled. */
    constructor (tab: int)
      ensures Snapshot() == Initial(tab)
    {
      keyState := map[];
      firstChecked := map[];
      preventDefaultOn := [tab];
    }

    /** `isKeyDown(keycode)` */
    method IsKeyDown(keycode: int) returns (b: bool)
      ensures b == Down(Snapshot(), keycode)
    {
      b := keycode in keyState && keyState[keycode];
    }

    /** `isKeyFirstDown(keycode)` */
    method IsKeyFirstDown(keycode: int) returns (b: bool)
      modifies this
      ensures (b, Snapshot()) == FirstDown(old(Snapshot()), keycode)
    {
      if !(keycode in keyState && keyState[keycode]) || (keycode in firstChecked && firstChecked[keycode]) {
        return false;
      }
      firstChecked := firstChecked[keycode := true];
      b := true;
    }

    /** `_handleInput(event)`; the result says whether it calls
        `event.preventDefault()`. */
    method HandleInput(e: KeyEvent) returns (preventDefault: bool)
      modifies this
      ensures (Snapshot(), preventDefault) == Handle(old(Snapshot()), e)
    {
      keyState := keyState[e.which := e.kind == KeyDown];
      if e.kind == KeyUp {
        firstChecked := firstChecked - {e.which};
      }
      var i := IndexOf(preventDefaultOn, e.which);
      preventDefault := i != -1;
    }
  }

  /** `list.indexOf(x)`: the first position of `x`, or -1. */
  method IndexOf(list: seq<int>, x: int) returns (r: int)
    ensures r == -1 <==> x !in list
    ensures r != -1 ==> 0 <= r < |list| && list[r] == x && x !in list[..r]
  {
    var i := 0;
    while i < |list|
      invariant 0 <= i <= |list|
      invariant x !in list[..i]
    {
      if list[i] == x {
        return i;
      }
      i := i + 1;
    }
    assert list[..i] == list;
    return -1;
  }
}
