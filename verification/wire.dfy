/**
 * Fixed-width little-endian fields of the binary key/value format, and the
 * result type every decoder returns.
 *
 * A decoder reads a byte sequence `s` starting at a cursor `pos` and either
 * fails or returns the decoded value together with the cursor after it
 * (`Parsed(value, next)`). An `unwrap()` on a read that hits the end of the
 * stream becomes `Err(UnexpectedEof)`; the panic on an unknown type tag
 * becomes `Err(InvalidType(tag))`.
 */
module Wire {

  type byte = x: int | 0 <= x < 0x100
  type u16 = x: int | 0 <= x < 0x1_0000
  type u32 = x: int | 0 <= x < 0x1_0000_0000
  type u64 = x: int | 0 <= x < 0x1_0000_0000_0000_0000
  type i32 = x: int | -0x8000_0000 <= x < 0x8000_0000
  type i64 = x: int | -0x8000_0000_0000_0000 <= x < 0x8000_0000_0000_0000

  datatype Error = UnexpectedEof | InvalidType(tag: byte)

  datatype Result<+T> = Ok(value: T) | Err(error: Error)

  /** A decoded value and the cursor position just after it. */
  datatype Parsed<+T> = Parsed(value: T, next: nat)

  /** Pairs the result of a reader method with the cursor it left behind. */
  function Outcome<T>(r: Result<T>, next: nat): Result<Parsed<T>>
  {
    match r
    case Ok(v) => Ok(Parsed(v, next))
    case Err(e) => Err(e)
  }

  /** `r` is a success holding `v`, with the cursor left at `next`. */
  predicate Yields<T(==)>(r: Result<Parsed<T>>, v: T, next: nat)
  {
    r.Ok? && r.value.value == v && r.value.next == next
  }

  /** Puts `xs` in front of the sequence a successful decode produced. */
  function Prepend<X>(xs: seq<X>, r: Result<Parsed<seq<X>>>): Result<Parsed<seq<X>>>
  {
    match r
    case Ok(Parsed(ys, p)) => Ok(Parsed(xs + ys, p))
    case Err(e) => Err(e)
  }

  lemma PrependNothing<X>(r: Result<Parsed<seq<X>>>)
    ensures Prepend([], r) == r
  {
    match r
    case Ok(Parsed(ys, p)) =>
      assert [] + ys == ys;
    case Err(_) =>
  }

  lemma PrependAppend<X>(xs: seq<X>, ys: seq<X>, r: Result<Parsed<seq<X>>>)
    ensures Prepend(xs, Prepend(ys, r)) == Prepend(xs + ys, r)
  {
    match r
    case Ok(Parsed(zs, p)) =>
      assert xs + (ys + zs) == (xs + ys) + zs;
    case Err(_) =>
  }

  function Pow256(n: nat): (r: nat)
    ensures r > 0
  {
    if n == 0 then 1 else 0x100 * Pow256(n - 1)
  }

  /** The unsigned number whose little-endian encoding is `b`. */
  function LittleEndian(b: seq<byte>): (r: nat)
    ensures r < Pow256(|b|)
  {
    if b == [] then 0 else b[0] + 0x100 * LittleEndian(b[1..])
  }

  /** The `n`-byte little-endian encoding of `x`. */
  function LittleEndianBytes(x: nat, n: nat): (b: seq<byte>)
    requires x < Pow256(n)
    ensures |b| == n
    ensures LittleEndian(b) == x
  {
    if n == 0 then []
    else
      var rest := LittleEndianBytes(x / 0x100, n - 1);
      assert ([x % 0x100] + rest)[1..] == rest;
      [x % 0x100] + rest
  }

  /** Distinct byte strings of one length decode to distinct numbers. */
  lemma {:induction false} LittleEndianInjective(b: seq<byte>)
    ensures LittleEndianBytes(LittleEndian(b), |b|) == b
  {
    if b != [] {
      var x := LittleEndian(b);
      LittleEndianInjective(b[1..]);
      assert x % 0x100 == b[0];
      assert x / 0x100 == LittleEndian(b[1..]);
    }
  }

  lemma Pow256Widths()
    ensures Pow256(2) == 0x1_0000
    ensures Pow256(4) == 0x1_0000_0000
    ensures Pow256(8) == 0x1_0000_0000_0000_0000
  {
  }

  /** The 16-bit little-endian unit at `i`. */
  function U16At(s: seq<byte>, i: nat): (r: u16)
    requires i + 2 <= |s|
  {
    Pow256Widths();
    LittleEndian(s[i..i + 2])
  }

  function U32At(s: seq<byte>, i: nat): (r: u32)
    requires i + 4 <= |s|
  {
    Pow256Widths();
    LittleEndian(s[i..i + 4])
  }

  function U64At(s: seq<byte>, i: nat): (r: u64)
    requires i + 8 <= |s|
  {
    Pow256Widths();
    LittleEndian(s[i..i + 8])
  }

  /** Two's-complement reading of a 32-bit pattern. */
  function Signed32(u: u32): (i: i32)
    ensures i < 0 <==> u >= 0x8000_0000
    ensures Unsigned32(i) == u
  {
    if u < 0x8000_0000 then u else u - 0x1_0000_0000
  }

  function Unsigned32(i: i32): (u: u32)
  {
    if i >= 0 then i else i + 0x1_0000_0000
  }

  /** Two's-complement reading of a 64-bit pattern. */
  function Signed64(u: u64): (i: i64)
    ensures i < 0 <==> u >= 0x8000_0000_0000_0000
    ensures Unsigned64(i) == u
  {
    if u < 0x8000_0000_0000_0000 then u else u - 0x1_0000_0000_0000_0000
  }

  function Unsigned64(i: i64): (u: u64)
  {
    if i >= 0 then i else i + 0x1_0000_0000_0000_0000
  }

  lemma SignedUnsignedInverse(i: i32, l: i64)
    ensures Signed32(Unsigned32(i)) == i
    ensures Signed64(Unsigned64(l)) == l
  {
  }

  // Readers at a cursor. Each fails with UnexpectedEof when fewer bytes remain
  // than the field needs, as byteorder's read_* and read_exact do.

  function DecodeU8(s: seq<byte>, pos: nat): (r: Result<Parsed<byte>>)
    requires pos <= |s|
    ensures r.Ok? <==> pos < |s|
    ensures r.Ok? ==> r.value.next == pos + 1 && r.value.value == s[pos]
    ensures r.Err? ==> r.error == UnexpectedEof
  {
    if pos < |s| then Ok(Parsed(s[pos], pos + 1)) else Err(UnexpectedEof)
  }

  function DecodeU16(s: seq<byte>, pos: nat): (r: Result<Parsed<u16>>)
    requires pos <= |s|
    ensures r.Ok? <==> pos + 2 <= |s|
    ensures r.Ok? ==> r.value.next == pos + 2
    ensures r.Err? ==> r.error == UnexpectedEof
  {
    if pos + 2 <= |s| then Ok(Parsed(U16At(s, pos), pos + 2)) else Err(UnexpectedEof)
  }

  function DecodeU32(s: seq<byte>, pos: nat): (r: Result<Parsed<u32>>)
    requires pos <= |s|
    ensures r.Ok? <==> pos + 4 <= |s|
    ensures r.Ok? ==> r.value.next == pos + 4
    ensures r.Err? ==> r.error == UnexpectedEof
  {
    if pos + 4 <= |s| then Ok(Parsed(U32At(s, pos), pos + 4)) else Err(UnexpectedEof)
  }

  function DecodeU64(s: seq<byte>, pos: nat): (r: Result<Parsed<u64>>)
    requires pos <= |s|
    ensures r.Ok? <==> pos + 8 <= |s|
    ensures r.Ok? ==> r.value.next == pos + 8
    ensures r.Err? ==> r.error == UnexpectedEof
  {
    if pos + 8 <= |s| then Ok(Parsed(U64At(s, pos), pos + 8)) else Err(UnexpectedEof)
  }

  function DecodeI32(s: seq<byte>, pos: nat): (r: Result<Parsed<i32>>)
    requires pos <= |s|
    ensures r.Ok? <==> pos + 4 <= |s|
    ensures r.Ok? ==> r.value.next == pos + 4
    ensures r.Err? ==> r.error == UnexpectedEof
  {
    if pos + 4 <= |s| then Ok(Parsed(Signed32(U32At(s, pos)), pos + 4)) else Err(UnexpectedEof)
  }

  function DecodeI64(s: seq<byte>, pos: nat): (r: Result<Parsed<i64>>)
    requires pos <= |s|
    ensures r.Ok? <==> pos + 8 <= |s|
    ensures r.Ok? ==> r.value.next == pos + 8
    ensures r.Err? ==> r.error == UnexpectedEof
  {
    if pos + 8 <= |s| then Ok(Parsed(Signed64(U64At(s, pos)), pos + 8)) else Err(UnexpectedEof)
  }

  /**
   * The bytes under each fixed-width read are the little-endian encoding of
   * the value it returns (of its two's-complement pattern, when signed).
   */
  lemma FixedReads(s: seq<byte>, pos: nat)
    requires pos <= |s|
    ensures DecodeU16(s, pos).Ok? ==> LittleEndianBytes(DecodeU16(s, pos).value.value, 2) == s[pos..pos + 2]
    ensures DecodeU32(s, pos).Ok? ==> LittleEndianBytes(DecodeU32(s, pos).value.value, 4) == s[pos..pos + 4]
    ensures DecodeU64(s, pos).Ok? ==> LittleEndianBytes(DecodeU64(s, pos).value.value, 8) == s[pos..pos + 8]
    ensures DecodeI32(s, pos).Ok? ==>
              LittleEndianBytes(Unsigned32(DecodeI32(s, pos).value.value), 4) == s[pos..pos + 4]
    ensures DecodeI64(s, pos).Ok? ==>
              LittleEndianBytes(Unsigned64(DecodeI64(s, pos).value.value), 8) == s[pos..pos + 8]
  {
    if pos + 2 <= |s| { LittleEndianInjective(s[pos..pos + 2]); }
    if pos + 4 <= |s| { LittleEndianInjective(s[pos..pos + 4]); }
    if pos + 8 <= |s| { LittleEndianInjective(s[pos..pos + 8]); }
  }

  /** `read_exact` into an `n`-byte buffer: the bytes verbatim. */
  function DecodeBytes(s: seq<byte>, pos: nat, n: nat): (r: Result<Parsed<seq<byte>>>)
    requires pos <= |s|
    ensures r.Ok? <==> pos + n <= |s|
    ensures r.Ok? ==> r.value.next == pos + n && |r.value.value| == n &&
                      forall i :: 0 <= i < n ==> r.value.value[i] == s[pos + i]
    ensures r.Err? ==> r.error == UnexpectedEof
  {
    if pos + n <= |s| then Ok(Parsed(s[pos..pos + n], pos + n)) else Err(UnexpectedEof)
  }
}
