/** The cell codec of `client/data-tools.js`: five small fields packed into the
    16 bits of one grid cell, laid out as `TTTT TTTT EEEP PPSU` (type, temperature,
    pressure, static flag, updated flag), with bit toggles for the two flags. */
module DataTools {
  import opened Js

  const DATA_TYPE := 0
  const DATA_TEMP := 1
  const DATA_PRESSURE := 2
  const DATA_STATIC := 3
  const DATA_UPDATED := 4

  /** Number of fields a packed cell carries. */
  const FIELD_COUNT := 5

  datatype PackError = NotAnArray | WrongLength

  /** Field values that fit their bit widths: 8 bits of type, 3 of temperature,
      3 of pressure, 1 static bit and 1 updated bit. */
  predicate InRange(vals: seq<bv32>) {
    && |vals| == FIELD_COUNT
    && vals[DATA_TYPE] < 256
    && vals[DATA_TEMP] < 8
    && vals[DATA_PRESSURE] < 8
    && vals[DATA_STATIC] < 2
    && vals[DATA_UPDATED] < 2
  }

  /** `pack(vals)`. Throws unless given an array of exactly five elements. Fields
      in range pack into a value that fits a 16-bit cell and unpacks to the same
      fields. */
  function Pack(vals: Arg<seq<bv32>>): (r: Result<bv32, PackError>)
    ensures r == Err(NotAnArray) <==> vals.NotArray?
    ensures r == Err(WrongLength) <==> vals.IsArray? && |vals.elems| != FIELD_COUNT
    ensures vals.IsArray? && InRange(vals.elems) ==>
              r.Ok? && r.value < 0x1_0000 && Unpacked(r.value) == vals.elems
  {
    match vals
    case NotArray => Err(NotAnArray)
    case IsArray(v) =>
      if |v| != FIELD_COUNT then Err(WrongLength)
      else Ok((v[DATA_TYPE] << 8) | (v[DATA_TEMP] << 5) | (v[DATA_PRESSURE] << 2)
              | (v[DATA_STATIC] << 1) | v[DATA_UPDATED])
  }

  /** The five fields `unpack` reads out of `packed`. Every field but the type is
      masked to its width; the type is the rest of the value. */
  function Unpacked(packed: bv32): (r: seq<bv32>)
    ensures |r| == FIELD_COUNT
    ensures r[DATA_TEMP] <= 7 && r[DATA_PRESSURE] <= 7
    ensures r[DATA_STATIC] <= 1 && r[DATA_UPDATED] <= 1
  {
    [ ShiftRight8(packed),
      (packed >> 5) & 7,
      (packed >> 2) & 7,
      (packed >> 1) & 1,
      packed & 1 ]
  }

  /** `unpack(packed, out)`: writes the five fields into `out[0..4]`, records the
      raw value as `out.packedValue`, and returns `out`. */
  method Unpack(packed: bv32, out: OutArray<bv32>) returns (r: OutArray<bv32>)
    modifies out
    ensures r == out
    ensures out.elems == Overwrite(old(out.elems), Unpacked(packed))
    ensures out.packedValue == Some(packed)
  {
    var fields := Unpacked(packed);
    var i := 0;
    while i < FIELD_COUNT
      invariant 0 <= i <= FIELD_COUNT
      invariant out.elems == Overwrite(old(out.elems), fields[..i])
    {
      OverwriteOneMore(old(out.elems), fields, i);
      out.elems := SetAt(out.elems, i, fields[i]);
      i := i + 1;
    }
    assert fields[..FIELD_COUNT] == fields;
    out.packedValue := Some(packed);
    r := out;
  }

  /** Unpacking a packed in-range record gives the record back. */
  lemma UnpackPack(vals: seq<bv32>)
    requires InRange(vals)
    ensures Pack(IsArray(vals)).Ok?
    ensures Unpacked(Pack(IsArray(vals)).value) == vals
  {
  }

  /** A value fits a 16-bit cell exactly when its unpacked type fits 8 bits. */
  lemma UnpackedInRange(packed: bv32)
    ensures packed < 0x1_0000 <==> InRange(Unpacked(packed))
  {
  }

  /** Every 16-bit cell is the packing of its own fields: the codec is a
      bijection between 16-bit values and in-range records. */
  lemma PackUnpack(packed: bv32)
    requires packed < 0x1_0000
    ensures Pack(IsArray(Unpacked(packed))) == Ok(packed)
  {
  }

  /** `flipUpdated(value)`: toggles bit 0, the updated flag, and nothing else. */
  function FlipUpdated(value: bv32): (r: bv32)
    ensures Unpacked(r) == Unpacked(value)[DATA_UPDATED := Unpacked(value)[DATA_UPDATED] ^ 1]
  {
    FlipUpdatedFields(value);
    value ^ 1
  }

  /** `flipStatic(value)`: toggles bit 1, the static flag, and nothing else. */
  function FlipStatic(value: bv32): (r: bv32)
    ensures Unpacked(r) == Unpacked(value)[DATA_STATIC := Unpacked(value)[DATA_STATIC] ^ 1]
  {
    FlipStaticFields(value);
    value ^ 2
  }

  /** The type field lies above bit 7, so toggling bit 0 or bit 1 leaves it alone. */
  lemma TypeIgnoresBit0(value: bv32)
    ensures ShiftRight8(value ^ 1) == ShiftRight8(value)
  {
    assert (value ^ 1) & SIGN_BIT == value & SIGN_BIT;
    assert (value ^ 1) >> 8 == value >> 8;
    assert !((!(value ^ 1)) >> 8) == !((!value) >> 8);
  }

  lemma TypeIgnoresBit1(value: bv32)
    ensures ShiftRight8(value ^ 2) == ShiftRight8(value)
  {
    assert (value ^ 2) & SIGN_BIT == value & SIGN_BIT;
    assert (value ^ 2) >> 8 == value >> 8;
    assert !((!(value ^ 2)) >> 8) == !((!value) >> 8);
  }

  lemma FlipUpdatedFields(value: bv32)
    ensures Unpacked(value ^ 1) == Unpacked(value)[DATA_UPDATED := Unpacked(value)[DATA_UPDATED] ^ 1]
  {
    TypeIgnoresBit0(value);
    assert ((value ^ 1) >> 5) & 7 == (value >> 5) & 7;
    assert ((value ^ 1) >> 2) & 7 == (value >> 2) & 7;
    assert ((value ^ 1) >> 1) & 1 == (value >> 1) & 1;
    assert (value ^ 1) & 1 == (value & 1) ^ 1;
  }

  lemma FlipStaticFields(value: bv32)
    ensures Unpacked(value ^ 2) == Unpacked(value)[DATA_STATIC := Unpacked(value)[DATA_STATIC] ^ 1]
  {
    TypeIgnoresBit1(value);
    assert ((value ^ 2) >> 5) & 7 == (value >> 5) & 7;
    assert ((value ^ 2) >> 2) & 7 == (value >> 2) & 7;
    assert ((value ^ 2) >> 1) & 1 == ((value >> 1) & 1) ^ 1;
    assert (value ^ 2) & 1 == value & 1;
  }

  lemma FlipUpdatedTwice(value: bv32)
    ensures FlipUpdated(FlipUpdated(value)) == value
  {
  }

  lemma FlipStaticTwice(value: bv32)
    ensures FlipStatic(FlipStatic(value)) == value
  {
  }
}
