/**
 * The decoder as the source runs it: a reader whose cursor every `read_*`
 * call advances, `read_string` and `binary_loads` as loops over that reader.
 * Each method is proved to return what the functional decoder of the same
 * name returns at the cursor it started from, and to leave the cursor where
 * that decoder stops.
 */
module Readers {
  import opened Wire
  import opened Strings
  import opened KeyValues

  /**
   * A forward-only byte source: the bytes of the stream and how many of them
   * have been consumed.
   */
  class Reader {
    const data: array<byte>
    var pos: nat

    ghost predicate Valid()
      reads this
    {
      pos <= data.Length
    }

    constructor (data: array<byte>)
      ensures Valid() && this.data == data && pos == 0
    {
      this.data := data;
      pos := 0;
    }

    method ReadU8() returns (r: Result<byte>)
      requires Valid()
      modifies this
      ensures Valid()
      ensures Outcome(r, pos) == DecodeU8(data[..], old(pos))
    {
      if pos < data.Length {
        r := Ok(data[pos]);
        pos := pos + 1;
      } else {
        r := Err(UnexpectedEof);
      }
    }

    method ReadU16() returns (r: Result<u16>)
      requires Valid()
      modifies this
      ensures Valid()
      ensures Outcome(r, pos) == DecodeU16(data[..], old(pos))
    {
      if pos + 2 <= data.Length {
        r := Ok(U16At(data[..], pos));
        pos := pos + 2;
      } else {
        r := Err(UnexpectedEof);
      }
    }

    method ReadU32() returns (r: Result<u32>)
      requires Valid()
      modifies this
      ensures Valid()
      ensures Outcome(r, pos) == DecodeU32(data[..], old(pos))
    {
      if pos + 4 <= data.Length {
        r := Ok(U32At(data[..], pos));
        pos := pos + 4;
      } else {
        r := Err(UnexpectedEof);
      }
    }

    method ReadU64() returns (r: Result<u64>)
      requires Valid()
      modifies this
      ensures Valid()
      ensures Outcome(r, pos) == DecodeU64(data[..], old(pos))
    {
      if pos + 8 <= data.Length {
        r := Ok(U64At(data[..], pos));
        pos := pos + 8;
      } else {
        r := Err(UnexpectedEof);
      }
    }

    method ReadI32() returns (r: Result<i32>)
      requires Valid()
      modifies this
      ensures Valid()
      ensures Outcome(r, pos) == DecodeI32(data[..], old(pos))
    {
      if pos + 4 <= data.Length {
        r := Ok(Signed32(U32At(data[..], pos)));
        pos := pos + 4;
      } else {
        r := Err(UnexpectedEof);
      }
    }

    method ReadI64() returns (r: Result<i64>)
      requires Valid()
      modifies this
      ensures Valid()
      ensures Outcome(r, pos) == DecodeI64(data[..], old(pos))
    {
      if pos + 8 <= data.Length {
        r := Ok(Signed64(U64At(data[..], pos)));
        pos := pos + 8;
      } else {
        r := Err(UnexpectedEof);
      }
    }

    /** `read_exact` into a buffer of `n` bytes. */
    method ReadExact(n: nat) returns (r: Result<seq<byte>>)
      requires Valid()
      modifies this
      ensures Valid()
      ensures Outcome(r, pos) == DecodeBytes(data[..], old(pos), n)
    {
      if pos + n <= data.Length {
        r := Ok(data[pos..pos + n]);
        pos := pos + n;
      } else {
        r := Err(UnexpectedEof);
      }
    }
  }

  /** `read_string`: collects code units until a zero unit, which it consumes. */
  method ReadString(reader: Reader, wide: bool) returns (r: Result<seq<u16>>)
    requires reader.Valid()
    modifies reader
    ensures reader.Valid()
    ensures Outcome(r, reader.pos) == DecodeString(reader.data[..], old(reader.pos), wide)
  {
    ghost var s := reader.data[..];
    ghost var start := reader.pos;
    var buf: seq<u16> := [];
    PrependNothing(DecodeString(s, start, wide));
    if wide {
      while true
        invariant reader.Valid() && start <= reader.pos
        invariant DecodeString(s, start, wide) == Prepend(buf, DecodeString(s, reader.pos, wide))
        decreases reader.data.Length - reader.pos
      {
        ghost var here := reader.pos;
        var c := reader.ReadU16();
        if c.Err? {
          return Err(c.error);
        }
        if c.value == 0 {
          assert DecodeString(s, here, wide) == Ok(Parsed([], reader.pos));
          assert buf + [] == buf;
          break;
        }
        PrependAppend(buf, [c.value], DecodeString(s, reader.pos, wide));
        buf := buf + [c.value];
      }
    } else {
      while true
        invariant reader.Valid() && start <= reader.pos
        invariant DecodeString(s, start, wide) == Prepend(buf, DecodeString(s, reader.pos, wide))
        decreases reader.data.Length - reader.pos
      {
        ghost var here := reader.pos;
        var c := reader.ReadU8();
        if c.Err? {
          return Err(c.error);
        }
        if c.value == 0 {
          assert DecodeString(s, here, wide) == Ok(Parsed([], reader.pos));
          assert buf + [] == buf;
          break;
        }
        PrependAppend(buf, [c.value], DecodeString(s, reader.pos, wide));
        buf := buf + [c.value];
      }
    }
    r := Ok(buf);
  }

  /**
   * `binary_loads`: reads entries into a map until the terminator of the
   * chosen format, recursing for nested nodes.
   */
  method BinaryLoads(reader: Reader, alt: bool) returns (r: Result<KeyValue>)
    requires reader.Valid()
    modifies reader
    ensures reader.Valid()
    ensures Outcome(r, reader.pos) == DecodeNode(reader.data[..], old(reader.pos), alt)
    decreases reader.data.Length - reader.pos, 1
  {
    ghost var s := reader.data[..];
    ghost var start := reader.pos;
    ghost var seen: seq<Entry> := [];
    var currentBinEnd := if alt then BinEndAlt else BinEnd;
    var node: KeyValue := map[];
    PrependNothing(DecodeEntries(s, start, alt));
    while true
      invariant reader.Valid() && start <= reader.pos
      invariant node == ToMap(seen)
      invariant DecodeEntries(s, start, alt) == Prepend(seen, DecodeEntries(s, reader.pos, alt))
      decreases reader.data.Length - reader.pos
    {
      ghost var here := reader.pos;
      var t := reader.ReadU8();
      if t.Err? {
        return Err(t.error);
      }
      if t.value == currentBinEnd {
        assert DecodeEntries(s, here, alt) == Ok(Parsed([], reader.pos));
        assert seen + [] == seen;
        return Ok(node);
      }
      var key := ReadString(reader, false);
      if key.Err? {
        return Err(key.error);
      }
      var value := ReadValue(reader, t.value, alt);
      if value.Err? {
        return Err(value.error);
      }
      PrependAppend(seen, [(key.value, value.value)], DecodeEntries(s, reader.pos, alt));
      ToMapSnoc(seen, key.value, value.value);
      node := node[key.value := value.value];
      seen := seen + [(key.value, value.value)];
    }
  }

  /**
   * The dispatch on the tag inside `binary_loads`' loop, after the key: reads
   * the payload the tag announces, or fails on a tag it does not know.
   */
  method ReadValue(reader: Reader, t: byte, alt: bool) returns (r: Result<Value>)
    requires reader.Valid()
    requires t != Terminator(alt)
    modifies reader
    ensures reader.Valid()
    ensures Outcome(r, reader.pos) == DecodeValue(reader.data[..], old(reader.pos), t, alt)
    decreases reader.data.Length - reader.pos, 2
  {
    if t == BinNone {
      var subnode := BinaryLoads(reader, alt);
      if subnode.Err? {
        return Err(subnode.error);
      }
      r := Ok(KeyValueType(subnode.value));
    } else if t == BinString {
      var str := ReadString(reader, false);
      if str.Err? {
        return Err(str.error);
      }
      r := Ok(StringType(str.value));
    } else if t == BinWideString {
      var str := ReadString(reader, true);
      if str.Err? {
        return Err(str.error);
      }
      r := Ok(WideStringType(str.value));
    } else if t == BinInt32 || t == BinPointer || t == BinColor {
      var val := reader.ReadI32();
      if val.Err? {
        return Err(val.error);
      }
      if t == BinInt32 {
        r := Ok(Int32Type(val.value));
      } else if t == BinPointer {
        r := Ok(PointerType(val.value));
      } else {
        r := Ok(ColorType(val.value));
      }
    } else if t == BinUInt64 {
      var val := reader.ReadU64();
      if val.Err? {
        return Err(val.error);
      }
      r := Ok(UInt64Type(val.value));
    } else if t == BinInt64 {
      var val := reader.ReadI64();
      if val.Err? {
        return Err(val.error);
      }
      r := Ok(Int64Type(val.value));
    } else if t == BinFloat32 {
      // read_f32: the four bytes are kept as their bit pattern
      var val := reader.ReadU32();
      if val.Err? {
        return Err(val.error);
      }
      r := Ok(Float32Type(val.value));
    } else {
      r := Err(InvalidType(t));
    }
  }
}
