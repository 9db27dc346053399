/**
 * The tagged key/value tree (`Value`, `KeyValue`) and its decoder
 * (`binary_loads`), written as functions over a byte sequence and a cursor.
 *
 * A node is a run of entries `tag, key, payload` closed by a terminator tag:
 * 0x08 in the standard format, 0x0B in the alternative one. Keys are always
 * narrow strings. Tag 0x00 opens a nested node in the same format.
 */
module KeyValues {
  import opened Wire
  import opened Strings

  const BinNone: byte := 0x00
  const BinString: byte := 0x01
  const BinInt32: byte := 0x02
  const BinFloat32: byte := 0x03
  const BinPointer: byte := 0x04
  const BinWideString: byte := 0x05
  const BinColor: byte := 0x06
  const BinUInt64: byte := 0x07
  const BinEnd: byte := 0x08
  const BinInt64: byte := 0x0A
  const BinEndAlt: byte := 0x0B

  /**
   * One decoded value. Strings keep their raw code units; a 32-bit float keeps
   * its bit pattern. Int32Type, PointerType and ColorType share one wire
   * encoding and stay distinct.
   */
  datatype Value =
    | StringType(units: seq<u16>)
    | WideStringType(units: seq<u16>)
    | Int32Type(i: i32)
    | PointerType(i: i32)
    | ColorType(i: i32)
    | UInt64Type(u: u64)
    | Int64Type(l: i64)
    | Float32Type(bits: u32)
    | KeyValueType(kv: map<seq<u16>, Value>)

  type KeyValue = map<seq<u16>, Value>

  type Entry = (seq<u16>, Value)

  /** The terminator tag of the chosen format. */
  function Terminator(alt: bool): (t: byte)
    ensures !KnownTag(t)
    ensures t == BinEndAlt <==> alt
    ensures t == BinEnd <==> !alt
  {
    if alt then BinEndAlt else BinEnd
  }

  /** The tags that introduce a value. */
  predicate KnownTag(t: byte)
  {
    t == BinNone || t == BinString || t == BinInt32 || t == BinFloat32 || t == BinPointer ||
    t == BinWideString || t == BinColor || t == BinUInt64 || t == BinInt64
  }

  /**
   * The failures decoding can produce: the stream ends early, or a tag that is
   * neither a value tag nor the current format's terminator turns up.
   */
  predicate Admissible(e: Error, alt: bool)
  {
    e == UnexpectedEof || (!KnownTag(e.tag) && e.tag != Terminator(alt))
  }

  /**
   * Inserting the entries one after the other into an empty map, as
   * `node.insert(key, value)` does: a later entry overwrites an earlier one.
   */
  function ToMap<K, V>(es: seq<(K, V)>): (m: map<K, V>)
    ensures m.Keys == set e | e in es :: e.0
  {
    if es == [] then map[]
    else
      var init := es[..|es| - 1];
      assert es == init + [es[|es| - 1]];
      ToMap(init)[es[|es| - 1].0 := es[|es| - 1].1]
  }

  /** `binary_loads`: one node, up to and including its terminator. */
  function DecodeNode(s: seq<byte>, pos: nat, alt: bool): (r: Result<Parsed<KeyValue>>)
    requires pos <= |s|
    ensures r.Ok? ==> pos < r.value.next <= |s|
    ensures r.Err? ==> Admissible(r.error, alt)
    decreases |s| - pos, 1
  {
    match DecodeEntries(s, pos, alt)
    case Err(e) => Err(e)
    case Ok(Parsed(es, p)) => Ok(Parsed(ToMap(es), p))
  }

  /** The entries of one node in stream order, and the cursor after its terminator. */
  function DecodeEntries(s: seq<byte>, pos: nat, alt: bool): (r: Result<Parsed<seq<Entry>>>)
    requires pos <= |s|
    ensures r.Ok? ==> pos < r.value.next <= |s|
    ensures r.Err? ==> Admissible(r.error, alt)
    decreases |s| - pos, 0
  {
    match DecodeU8(s, pos)
    case Err(e) => Err(e)
    case Ok(Parsed(t, p0)) =>
      if t == Terminator(alt) then Ok(Parsed([], p0))
      else
        match DecodeString(s, p0, false)
        case Err(e) => Err(e)
        case Ok(Parsed(key, p1)) =>
          match DecodeValue(s, p1, t, alt)
          case Err(e) => Err(e)
          case Ok(Parsed(v, p2)) => Prepend([(key, v)], DecodeEntries(s, p2, alt))
  }

  /** The payload introduced by tag `tag`, which is not the terminator. */
  function DecodeValue(s: seq<byte>, pos: nat, tag: byte, alt: bool): (r: Result<Parsed<Value>>)
    requires pos <= |s|
    requires tag != Terminator(alt)
    ensures r.Ok? ==> pos < r.value.next <= |s|
    ensures r.Err? ==> Admissible(r.error, alt)
    ensures r == Err(InvalidType(tag)) <==> !KnownTag(tag)
    decreases |s| - pos, 2
  {
    if tag == BinNone then
      match DecodeNode(s, pos, alt)
      case Err(e) => Err(e)
      case Ok(Parsed(kv, p)) => Ok(Parsed(KeyValueType(kv), p))
    else if tag == BinString || tag == BinWideString then
      match DecodeString(s, pos, tag == BinWideString)
      case Err(e) => Err(e)
      case Ok(Parsed(u, p)) =>
        Ok(Parsed(if tag == BinString then StringType(u) else WideStringType(u), p))
    else if tag == BinInt32 || tag == BinPointer || tag == BinColor then
      match DecodeI32(s, pos)
      case Err(e) => Err(e)
      case Ok(Parsed(i, p)) =>
        Ok(Parsed(if tag == BinInt32 then Int32Type(i)
                  else if tag == BinPointer then PointerType(i)
                  else ColorType(i), p))
    else if tag == BinUInt64 then
      match DecodeU64(s, pos)
      case Err(e) => Err(e)
      case Ok(Parsed(u, p)) => Ok(Parsed(UInt64Type(u), p))
    else if tag == BinInt64 then
      match DecodeI64(s, pos)
      case Err(e) => Err(e)
      case Ok(Parsed(l, p)) => Ok(Parsed(Int64Type(l), p))
    else if tag == BinFloat32 then
      match DecodeU32(s, pos)
      case Err(e) => Err(e)
      case Ok(Parsed(b, p)) => Ok(Parsed(Float32Type(b), p))
    else
      Err(InvalidType(tag))
  }

  /** One entry that is not the terminator, followed by the rest of the node. */
  lemma EntriesStep(s: seq<byte>, pos: nat, alt: bool, key: seq<u16>, p1: nat, v: Value, p2: nat,
                    tail: seq<Entry>, next: nat)
    requires pos < |s| && s[pos] != Terminator(alt)
    requires Yields(DecodeString(s, pos + 1, false), key, p1) && p1 <= |s|
    requires Yields(DecodeValue(s, p1, s[pos], alt), v, p2) && p2 <= |s|
    requires Yields(DecodeEntries(s, p2, alt), tail, next)
    ensures Yields(DecodeEntries(s, pos, alt), [(key, v)] + tail, next)
  {
  }

  /** The last entry with a given key decides its value in the node. */
  lemma {:induction false} LastWins<K, V>(es: seq<(K, V)>, i: nat)
    requires i < |es|
    requires forall j :: i < j < |es| ==> es[j].0 != es[i].0
    ensures es[i].0 in ToMap(es) && ToMap(es)[es[i].0] == es[i].1
  {
    var init := es[..|es| - 1];
    if i < |es| - 1 {
      LastWins(init, i);
    }
  }

  /** A key no entry carries is absent from the node. */
  lemma AbsentKey<K, V>(es: seq<(K, V)>, k: K)
    requires forall j :: 0 <= j < |es| ==> es[j].0 != k
    ensures k !in ToMap(es)
  {
  }

  lemma ToMapSnoc<K, V>(es: seq<(K, V)>, k: K, v: V)
    ensures ToMap(es + [(k, v)]) == ToMap(es)[k := v]
  {
    assert (es + [(k, v)])[..|es|] == es;
  }

  /**
   * The terminator of the current format ends the node; the other format's
   * terminator is an ordinary unknown tag.
   */
  lemma TerminatorTags(s: seq<byte>, pos: nat, alt: bool)
    requires pos < |s|
    ensures s[pos] == Terminator(alt) ==> DecodeNode(s, pos, alt) == Ok(Parsed(map[], pos + 1))
    ensures s[pos] == Terminator(!alt) ==>
              DecodeNode(s, pos, alt) ==
                if DecodeString(s, pos + 1, false).Err? then Err(UnexpectedEof)
                else Err(InvalidType(Terminator(!alt)))
  {
  }

  /**
   * A tag that is neither a value tag nor the terminator fails the node, but
   * only once its key has been read: a key cut short by the end of the stream
   * is reported first.
   */
  lemma UnknownTag(s: seq<byte>, pos: nat, alt: bool)
    requires pos < |s| && s[pos] != Terminator(alt) && !KnownTag(s[pos])
    ensures DecodeEntries(s, pos, alt) ==
              if DecodeString(s, pos + 1, false).Err? then Err(UnexpectedEof)
              else Err(InvalidType(s[pos]))
  {
  }

  /** The width of the payload of a fixed-width tag; 0 for the other tags. */
  function PayloadWidth(tag: byte): nat
  {
    if tag == BinInt32 || tag == BinPointer || tag == BinColor || tag == BinFloat32 then 4
    else if tag == BinUInt64 || tag == BinInt64 then 8
    else 0
  }

  /**
   * A fixed-width payload succeeds exactly when that many bytes remain, and
   * then consumes exactly that many.
   */
  lemma FixedPayloads(s: seq<byte>, pos: nat, tag: byte, alt: bool)
    requires pos <= |s| && PayloadWidth(tag) > 0
    ensures tag != Terminator(alt)
    ensures var r := DecodeValue(s, pos, tag, alt);
      && (r.Ok? <==> pos + PayloadWidth(tag) <= |s|)
      && (r.Ok? ==> r.value.next == pos + PayloadWidth(tag))
      && (r.Err? ==> r.error == UnexpectedEof)
  {
  }

  /**
   * Tags 0x02, 0x04 and 0x06 read the same four bytes as the same signed
   * integer, and give three different values.
   */
  lemma Int32Variants(s: seq<byte>, pos: nat, alt: bool)
    requires pos + 4 <= |s|
    ensures var a := DecodeValue(s, pos, BinInt32, alt).value.value;
      var b := DecodeValue(s, pos, BinPointer, alt).value.value;
      var c := DecodeValue(s, pos, BinColor, alt).value.value;
      && a.Int32Type? && b.PointerType? && c.ColorType?
      && a.i == b.i == c.i && Unsigned32(a.i) == U32At(s, pos)
      && a != b && b != c && a != c
  {
    FixedPayloads(s, pos, BinInt32, alt);
    FixedPayloads(s, pos, BinPointer, alt);
    FixedPayloads(s, pos, BinColor, alt);
  }

  /**
   * Tags 0x07 and 0x0A read the same eight bytes, as an unsigned and as a
   * two's-complement signed integer.
   */
  lemma Int64Variants(s: seq<byte>, pos: nat, alt: bool)
    requires pos + 8 <= |s|
    ensures var a := DecodeValue(s, pos, BinUInt64, alt).value.value;
      var b := DecodeValue(s, pos, BinInt64, alt).value.value;
      && a.UInt64Type? && b.Int64Type?
      && a.u == U64At(s, pos) && Unsigned64(b.l) == a.u
      && (b.l < 0 <==> a.u >= 0x8000_0000_0000_0000)
  {
    FixedPayloads(s, pos, BinUInt64, alt);
    FixedPayloads(s, pos, BinInt64, alt);
  }

  /** Tag 0x01 reads a narrow string and tag 0x05 a wide one, as `read_string` does. */
  lemma StringPayloads(s: seq<byte>, pos: nat, alt: bool, u: seq<u16>, p: nat)
    requires pos <= |s|
    ensures DecodeValue(s, pos, BinString, alt) == Ok(Parsed(StringType(u), p)) <==>
              DecodeString(s, pos, false) == Ok(Parsed(u, p))
    ensures DecodeValue(s, pos, BinWideString, alt) == Ok(Parsed(WideStringType(u), p)) <==>
              DecodeString(s, pos, true) == Ok(Parsed(u, p))
  {
  }

  /**
   * Tag 0x00 reads a whole nested node in the same format, its terminator
   * included, before the enclosing node goes on.
   */
  lemma NestedPayload(s: seq<byte>, pos: nat, alt: bool)
    requires pos <= |s|
    ensures var r := DecodeValue(s, pos, BinNone, alt);
      var n := DecodeNode(s, pos, alt);
      && (r.Ok? <==> n.Ok?)
      && (r.Ok? ==> r.value == Parsed(KeyValueType(n.value.value), n.value.next))
      && (r.Err? ==> r.error == n.error)
  {
  }

  /**
   * The decoded node holds exactly the keys of its entries, and a key holds
   * the value of the last entry that carries it.
   */
  lemma NodeEntries(s: seq<byte>, pos: nat, alt: bool, i: nat)
    requires pos <= |s| && DecodeEntries(s, pos, alt).Ok?
    ensures var es := DecodeEntries(s, pos, alt).value.value;
      var node := DecodeNode(s, pos, alt).value.value;
      && node.Keys == (set e | e in es :: e.0)
      && (i < |es| && (forall j :: i < j < |es| ==> es[j].0 != es[i].0) ==>
            es[i].0 in node && node[es[i].0] == es[i].1)
  {
    var es := DecodeEntries(s, pos, alt).value.value;
    if i < |es| && (forall j :: i < j < |es| ==> es[j].0 != es[i].0) {
      LastWins(es, i);
    }
  }
}
