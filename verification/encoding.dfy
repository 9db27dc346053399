/**
 * A reference encoder for the key/value format and the proof that the
 * decoder inverts it. The source has no encoder; this one exists to state
 * what the decoder reads: a node written as a list of fields decodes to the
 * map in which each key holds the value of its last field, nested nodes
 * included, and the decoder stops right after the node's terminator.
 */
module Encoding {
  import opened Wire
  import opened Strings
  import opened KeyValues

  /** One entry as written on the wire: a key and either a scalar or a nested node. */
  datatype Field = Field(key: seq<u16>, body: Body)

  datatype Body = Scalar(v: Value) | Nested(fields: seq<Field>)

  /** Code units that can be written as a string of the given width. */
  predicate Text(u: seq<u16>, wide: bool)
  {
    forall k :: 0 <= k < |u| ==> u[k] != 0 && (wide || u[k] < 0x100)
  }

  /** A value with a wire form of its own: not a node, and strings free of zero units. */
  predicate ScalarOk(v: Value)
  {
    match v
    case StringType(u) => Text(u, false)
    case WideStringType(u) => Text(u, true)
    case KeyValueType(_) => false
    case _ => true
  }

  predicate FieldsOk(fs: seq<Field>)
    decreases fs
  {
    fs == [] || (FieldOk(fs[0]) && FieldsOk(fs[1..]))
  }

  predicate FieldOk(f: Field)
    decreases f
  {
    Text(f.key, false) &&
    match f.body
    case Scalar(v) => ScalarOk(v)
    case Nested(gs) => FieldsOk(gs)
  }

  function TagOf(b: Body): byte
  {
    match b
    case Nested(_) => BinNone
    case Scalar(v) =>
      match v
      case StringType(_) => BinString
      case WideStringType(_) => BinWideString
      case Int32Type(_) => BinInt32
      case PointerType(_) => BinPointer
      case ColorType(_) => BinColor
      case UInt64Type(_) => BinUInt64
      case Int64Type(_) => BinInt64
      case Float32Type(_) => BinFloat32
      case KeyValueType(_) => BinNone
  }

  function EncodeUnit(c: u16, wide: bool): (b: seq<byte>)
    requires wide || c < 0x100
    ensures |b| == UnitWidth(wide)
  {
    Pow256Widths();
    if wide then LittleEndianBytes(c, 2) else [c]
  }

  /** The units of `u`, then a zero unit. */
  function EncodeString(u: seq<u16>, wide: bool): seq<byte>
    requires Text(u, wide)
  {
    if u == [] then EncodeUnit(0, wide)
    else EncodeUnit(u[0], wide) + EncodeString(u[1..], wide)
  }

  function EncodeScalar(v: Value): seq<byte>
    requires ScalarOk(v)
  {
    Pow256Widths();
    match v
    case StringType(u) => EncodeString(u, false)
    case WideStringType(u) => EncodeString(u, true)
    case Int32Type(i) => LittleEndianBytes(Unsigned32(i), 4)
    case PointerType(i) => LittleEndianBytes(Unsigned32(i), 4)
    case ColorType(i) => LittleEndianBytes(Unsigned32(i), 4)
    case UInt64Type(u) => LittleEndianBytes(u, 8)
    case Int64Type(l) => LittleEndianBytes(Unsigned64(l), 8)
    case Float32Type(bits) => LittleEndianBytes(bits, 4)
  }

  /** The fields in order, then the terminator of the chosen format. */
  function EncodeFields(fs: seq<Field>, alt: bool): seq<byte>
    requires FieldsOk(fs)
    decreases fs, 2
  {
    if fs == [] then [Terminator(alt)]
    else EncodeField(fs[0], alt) + EncodeFields(fs[1..], alt)
  }

  /** Tag, key as a narrow string, payload. */
  function EncodeField(f: Field, alt: bool): seq<byte>
    requires FieldOk(f)
    decreases f, 1
  {
    [TagOf(f.body)] + EncodeString(f.key, false) + Payload(f, alt)
  }

  /** The payload bytes of a field: a scalar's encoding or a nested node's. */
  function Payload(f: Field, alt: bool): seq<byte>
    requires FieldOk(f)
    decreases f, 0
  {
    match f.body
    case Scalar(v) => EncodeScalar(v)
    case Nested(gs) => EncodeFields(gs, alt)
  }

  /** The entries a list of fields stands for, in order. */
  function Entries(fs: seq<Field>): seq<Entry>
    decreases fs
  {
    if fs == [] then [] else [(fs[0].key, Meaning(fs[0].body))] + Entries(fs[1..])
  }

  function Meaning(b: Body): Value
    decreases b
  {
    match b
    case Scalar(v) => v
    case Nested(gs) => KeyValueType(ToMap(Entries(gs)))
  }

  /** The bytes `b` sit in `s` at `pos`. */
  ghost predicate At(s: seq<byte>, pos: nat, b: seq<byte>)
  {
    pos + |b| <= |s| && s[pos..pos + |b|] == b
  }

  lemma AtSplit(s: seq<byte>, pos: nat, a: seq<byte>, b: seq<byte>)
    requires At(s, pos, a + b)
    ensures At(s, pos, a) && At(s, pos + |a|, b)
  {
    assert s[pos..pos + |a|] == s[pos..pos + |a + b|][..|a|];
    assert s[pos + |a|..pos + |a| + |b|] == s[pos..pos + |a + b|][|a|..];
  }

  lemma UnitRoundTrip(c: u16, wide: bool, s: seq<byte>, pos: nat)
    requires wide || c < 0x100
    requires At(s, pos, EncodeUnit(c, wide))
    ensures pos + UnitWidth(wide) <= |s| && UnitAt(s, pos, wide) == c
  {
    if !wide {
      assert s[pos] == s[pos..pos + 1][0];
    }
  }

  /** A string written by the encoder reads back as the same units. */
  lemma {:induction false} StringRoundTrip(u: seq<u16>, wide: bool, s: seq<byte>, pos: nat)
    requires Text(u, wide)
    requires At(s, pos, EncodeString(u, wide))
    ensures Yields(DecodeString(s, pos, wide), u, pos + |EncodeString(u, wide)|)
    decreases u
  {
    if u == [] {
      UnitRoundTrip(0, wide, s, pos);
    } else {
      var head := EncodeUnit(u[0], wide);
      AtSplit(s, pos, head, EncodeString(u[1..], wide));
      UnitRoundTrip(u[0], wide, s, pos);
      StringRoundTrip(u[1..], wide, s, pos + |head|);
      assert [u[0]] + u[1..] == u;
    }
  }

  lemma FixedRoundTrip(x: nat, n: nat, s: seq<byte>, pos: nat)
    requires x < Pow256(n)
    requires At(s, pos, LittleEndianBytes(x, n))
    ensures pos + n <= |s| && LittleEndian(s[pos..pos + n]) == x
  {
  }

  /** A scalar written by the encoder reads back under its own tag. */
  lemma ScalarRoundTrip(v: Value, alt: bool, s: seq<byte>, pos: nat)
    requires ScalarOk(v)
    requires At(s, pos, EncodeScalar(v))
    ensures TagOf(Scalar(v)) != Terminator(alt)
    ensures Yields(DecodeValue(s, pos, TagOf(Scalar(v)), alt), v, pos + |EncodeScalar(v)|)
  {
    match v
    case StringType(u) =>
      StringRoundTrip(u, false, s, pos);
    case WideStringType(u) =>
      StringRoundTrip(u, true, s, pos);
    case _ =>
      FixedScalarRoundTrip(v, alt, s, pos);
  }

  /** The fixed-width scalars: four or eight little-endian bytes. */
  lemma FixedScalarRoundTrip(v: Value, alt: bool, s: seq<byte>, pos: nat)
    requires ScalarOk(v) && !v.StringType? && !v.WideStringType?
    requires At(s, pos, EncodeScalar(v))
    ensures TagOf(Scalar(v)) != Terminator(alt)
    ensures Yields(DecodeValue(s, pos, TagOf(Scalar(v)), alt), v, pos + |EncodeScalar(v)|)
  {
    Pow256Widths();
    match v
    case Int32Type(i) =>
      FixedRoundTrip(Unsigned32(i), 4, s, pos);
    case PointerType(i) =>
      FixedRoundTrip(Unsigned32(i), 4, s, pos);
    case ColorType(i) =>
      FixedRoundTrip(Unsigned32(i), 4, s, pos);
    case UInt64Type(u) =>
      FixedRoundTrip(u, 8, s, pos);
    case Int64Type(l) =>
      FixedRoundTrip(Unsigned64(l), 8, s, pos);
    case Float32Type(bits) =>
      FixedRoundTrip(bits, 4, s, pos);
  }

  /** Where the tag, the key and the payload of an encoded field sit. */
  lemma FieldLayout(f: Field, alt: bool, s: seq<byte>, pos: nat)
    requires FieldOk(f)
    requires At(s, pos, EncodeField(f, alt))
    ensures pos < |s| && s[pos] == TagOf(f.body)
    ensures At(s, pos + 1, EncodeString(f.key, false))
    ensures At(s, pos + 1 + |EncodeString(f.key, false)|, Payload(f, alt))
    ensures |EncodeField(f, alt)| == 1 + |EncodeString(f.key, false)| + |Payload(f, alt)|
  {
    var tag := [TagOf(f.body)];
    var key := EncodeString(f.key, false);
    var payload := Payload(f, alt);
    AtSplit(s, pos, tag + key, payload);
    AtSplit(s, pos, tag, key);
    assert s[pos] == s[pos..pos + 1][0];
  }

  /** The payload of a field reads back under the field's tag as the field's value. */
  lemma {:induction false} PayloadRoundTrip(f: Field, alt: bool, s: seq<byte>, pos: nat)
    requires FieldOk(f)
    requires At(s, pos, Payload(f, alt))
    ensures TagOf(f.body) != Terminator(alt)
    ensures Yields(DecodeValue(s, pos, TagOf(f.body), alt), Meaning(f.body), pos + |Payload(f, alt)|)
    decreases f, 1
  {
    match f.body {
      case Scalar(v) =>
        assert Payload(f, alt) == EncodeScalar(v);
        ScalarRoundTrip(v, alt, s, pos);
      case Nested(gs) =>
        assert Payload(f, alt) == EncodeFields(gs, alt);
        NodeAt(gs, alt, s, pos);
    }
  }

  /**
   * Fields written by the encoder read back as their entries, in order, and
   * the decoder stops right after the terminator; a nested node consumes its
   * own terminator before the enclosing node goes on.
   */
  lemma {:induction false} FieldsRoundTrip(fs: seq<Field>, alt: bool, s: seq<byte>, pos: nat)
    requires FieldsOk(fs)
    requires At(s, pos, EncodeFields(fs, alt))
    ensures Yields(DecodeEntries(s, pos, alt), Entries(fs), pos + |EncodeFields(fs, alt)|)
    decreases fs, 3
  {
    if fs == [] {
      assert s[pos] == s[pos..pos + 1][0];
    } else {
      FieldsConsRoundTrip(fs, alt, s, pos);
    }
  }

  /** The inductive step of FieldsRoundTrip: the first field, then the others. */
  lemma {:induction false} FieldsConsRoundTrip(fs: seq<Field>, alt: bool, s: seq<byte>, pos: nat)
    requires fs != [] && FieldsOk(fs)
    requires At(s, pos, EncodeFields(fs, alt))
    ensures Yields(DecodeEntries(s, pos, alt), Entries(fs), pos + |EncodeFields(fs, alt)|)
    decreases fs, 2
  {
    var f := fs[0];
    var head := EncodeField(f, alt);
    var rest := EncodeFields(fs[1..], alt);
    assert At(s, pos, head) && At(s, pos + |head|, rest) && |EncodeFields(fs, alt)| == |head| + |rest| by {
      assert EncodeFields(fs, alt) == head + rest;
      AtSplit(s, pos, head, rest);
    }
    var p := pos + |head|;
    FieldsRoundTrip(fs[1..], alt, s, p);
    FieldStep(f, alt, s, pos, p, Entries(fs[1..]), pos + |EncodeFields(fs, alt)|);
    assert Entries(fs) == [(f.key, Meaning(f.body))] + Entries(fs[1..]);
  }

  /**
   * A field written by the encoder: its tag is not a terminator, its key
   * reads back as a narrow string and its payload as its value.
   */
  lemma {:induction false} FieldRoundTrip(f: Field, alt: bool, s: seq<byte>, pos: nat)
    requires FieldOk(f)
    requires At(s, pos, EncodeField(f, alt))
    ensures pos < |s| && s[pos] == TagOf(f.body) && s[pos] != Terminator(alt)
    ensures var p1 := pos + 1 + |EncodeString(f.key, false)|;
      && Yields(DecodeString(s, pos + 1, false), f.key, p1)
      && p1 <= |s|
      && Yields(DecodeValue(s, p1, s[pos], alt), Meaning(f.body), pos + |EncodeField(f, alt)|)
    decreases f, 2
  {
    FieldLayout(f, alt, s, pos);
    StringRoundTrip(f.key, false, s, pos + 1);
    var p1 := pos + 1 + |EncodeString(f.key, false)|;
    PayloadRoundTrip(f, alt, s, p1);
  }

  /** A field written by the encoder is read as one entry, and decoding goes on after it. */
  lemma {:induction false} FieldStep(f: Field, alt: bool, s: seq<byte>, pos: nat, p: nat,
                                    tail: seq<Entry>, next: nat)
    requires FieldOk(f)
    requires At(s, pos, EncodeField(f, alt)) && p == pos + |EncodeField(f, alt)|
    requires Yields(DecodeEntries(s, p, alt), tail, next)
    ensures Yields(DecodeEntries(s, pos, alt), [(f.key, Meaning(f.body))] + tail, next)
    decreases f, 3
  {
    FieldRoundTrip(f, alt, s, pos);
    var p1 := pos + 1 + |EncodeString(f.key, false)|;
    EntriesStep(s, pos, alt, f.key, p1, Meaning(f.body), p, tail, next);
  }

  /** A node written by the encoder, read in place, is the map its fields describe. */
  lemma {:induction false} NodeAt(fs: seq<Field>, alt: bool, s: seq<byte>, pos: nat)
    requires FieldsOk(fs)
    requires At(s, pos, EncodeFields(fs, alt))
    ensures pos <= |s|
    ensures Yields(DecodeNode(s, pos, alt), ToMap(Entries(fs)), pos + |EncodeFields(fs, alt)|)
    ensures Yields(DecodeValue(s, pos, BinNone, alt), Meaning(Nested(fs)), pos + |EncodeFields(fs, alt)|)
    decreases fs, 4
  {
    FieldsRoundTrip(fs, alt, s, pos);
  }

  /** A node written by the encoder decodes to the map its fields describe. */
  lemma NodeRoundTrip(fs: seq<Field>, alt: bool, rest: seq<byte>)
    requires FieldsOk(fs)
    ensures DecodeNode(EncodeFields(fs, alt) + rest, 0, alt) ==
              Ok(Parsed(ToMap(Entries(fs)), |EncodeFields(fs, alt)|))
  {
    var s := EncodeFields(fs, alt) + rest;
    assert s[0..|EncodeFields(fs, alt)|] == EncodeFields(fs, alt);
    NodeAt(fs, alt, s, 0);
  }
}
