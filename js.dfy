/** The few pieces of JavaScript value semantics that the modelled code relies on:
    the 32-bit view of numbers taken by the bitwise operators, the truncation done
    by a `Uint16Array` store, arrays passed as `out` parameters, and the
    "is this an array" checks that guard some entry points. */
module Js {

  datatype Option<+T> = None | Some(value: T)

  datatype Result<+T, +E> = Ok(value: T) | Err(error: E)

  /** An argument that the code checks with `Array.isArray` or `instanceof Array`
      before using it. */
  datatype Arg<+T> = IsArray(elems: T) | NotArray

  const SIGN_BIT: bv32 := 0x8000_0000

  /** `x >> 8` in JavaScript: a shift by eight that copies the sign bit into
      the vacated high bits. (Where the code masks the shifted value to a few low
      bits, the copied sign bits fall outside the mask and a plain `>>` gives the
      same field.) */
  function ShiftRight8(x: bv32): bv32 {
    if x & SIGN_BIT == 0 then x >> 8 else !((!x) >> 8)
  }

  /** The value a `Uint16Array` element holds after `value` is stored into it:
      the number modulo 2^16. */
  function ToUint16(value: bv32): bv16 {
    (value & 0xFFFF) as bv16
  }

  /** A `Uint16Array` element as the 32-bit integer the bitwise operators see. */
  function Widen(cell: bv16): bv32 {
    cell as bv32
  }

  /** The elements of a dense array after `out[0] .. out[|fields| - 1]` are assigned
      `fields` in turn: the first elements are replaced, the array grows if it was
      shorter, and later elements are kept. */
  function Overwrite<T>(elems: seq<T>, fields: seq<T>): (r: seq<T>)
    ensures |r| == if |elems| < |fields| then |fields| else |elems|
    ensures r[..|fields|] == fields
    ensures forall i :: |fields| <= i < |elems| ==> r[i] == elems[i]
  {
    if |elems| <= |fields| then fields else fields + elems[|fields|..]
  }

  /** `out[i] = v` on a dense array whose first `i` elements are already set. */
  function SetAt<T>(elems: seq<T>, i: nat, v: T): (r: seq<T>)
    requires i <= |elems|
    ensures |r| == if i < |elems| then |elems| else i + 1
    ensures r[i] == v
    ensures forall j :: 0 <= j < |elems| && j != i ==> r[j] == elems[j]
  {
    if i < |elems| then elems[i := v] else elems + [v]
  }

  /** Assigning the fields one index at a time, in increasing order, builds
      up an `Overwrite`. */
  lemma OverwriteOneMore<T>(elems: seq<T>, fields: seq<T>, i: nat)
    requires i < |fields|
    ensures i <= |Overwrite(elems, fields[..i])|
    ensures SetAt(Overwrite(elems, fields[..i]), i, fields[i]) == Overwrite(elems, fields[..i + 1])
  {
    var before := Overwrite(elems, fields[..i]);
    var after := Overwrite(elems, fields[..i + 1]);
    var stepped := SetAt(before, i, fields[i]);
    assert |stepped| == |after|;
    forall j | 0 <= j < |after|
      ensures stepped[j] == after[j]
    {
      if j < i {
        assert before[..i] == fields[..i];
        assert after[..i + 1] == fields[..i + 1];
        assert before[j] == fields[j] == after[j];
      } else if j == i {
        assert after[..i + 1] == fields[..i + 1];
        assert after[j] == fields[i];
      } else {
        assert stepped[j] == before[j];
      }
    }
  }

  /** An array passed to the code as an `out` parameter. `elems` are its
      numbered elements; `packedValue` is the one named property the unpacking
      functions add to it. */
  class OutArray<T> {
    var elems: seq<T>
    var packedValue: Option<bv32>

    /** `[]` */
    constructor ()
      ensures elems == [] && packedValue == None
    {
      elems := [];
      packedValue := None;
    }
  }
}
