/**
 * Zero-terminated strings (`read_string`). A string is the sequence of code
 * units before the first zero unit; the zero unit is consumed and dropped.
 * Narrow strings use one byte per unit, wide strings two bytes, little-endian.
 * The lossy UTF-8 / UTF-16 conversion applied afterwards is not modelled: a
 * string is kept as its raw code units.
 */
module Strings {
  import opened Wire

  function UnitWidth(wide: bool): nat
  {
    if wide then 2 else 1
  }

  /** Byte offset of the `k`-th code unit of a string starting at `pos`. */
  function Offset(pos: nat, k: nat, wide: bool): nat
  {
    if wide then pos + 2 * k else pos + k
  }

  /** The code unit whose bytes start at `i`. */
  function UnitAt(s: seq<byte>, i: nat, wide: bool): u16
    requires i + UnitWidth(wide) <= |s|
  {
    if wide then U16At(s, i) else s[i]
  }

  /** One code unit: `read_u16::<LittleEndian>` when wide, `read_u8` otherwise. */
  function DecodeUnit(s: seq<byte>, pos: nat, wide: bool): (r: Result<Parsed<u16>>)
    requires pos <= |s|
    ensures r.Ok? <==> pos + UnitWidth(wide) <= |s|
    ensures r.Ok? ==> r.value == Parsed(UnitAt(s, pos, wide), pos + UnitWidth(wide))
    ensures r.Err? ==> r.error == UnexpectedEof
  {
    if wide then DecodeU16(s, pos)
    else match DecodeU8(s, pos)
      case Ok(Parsed(b, p)) => Ok(Parsed(b, p))
      case Err(e) => Err(e)
  }

  /** `read_string`: the code units up to the first zero unit, which is consumed. */
  function DecodeString(s: seq<byte>, pos: nat, wide: bool): (r: Result<Parsed<seq<u16>>>)
    requires pos <= |s|
    ensures r.Ok? ==> pos < r.value.next <= |s|
    ensures r.Err? ==> r.error == UnexpectedEof
    decreases |s| - pos
  {
    match DecodeUnit(s, pos, wide)
    case Err(e) => Err(e)
    case Ok(Parsed(c, p)) =>
      if c == 0 then Ok(Parsed([], p)) else Prepend([c], DecodeString(s, p, wide))
  }

  /** A non-zero unit read, then the rest of the string. */
  lemma StringStep(s: seq<byte>, pos: nat, wide: bool, c: u16, tail: seq<u16>, next: nat)
    requires pos + UnitWidth(wide) <= |s| && c != 0 && UnitAt(s, pos, wide) == c
    requires Yields(DecodeString(s, pos + UnitWidth(wide), wide), tail, next)
    ensures Yields(DecodeString(s, pos, wide), [c] + tail, next)
  {
  }

  /**
   * `u` followed by a zero unit is encoded at `pos`: every unit of `u` is the
   * non-zero unit at its offset, and the unit right after them is zero.
   */
  ghost predicate Terminated(s: seq<byte>, pos: nat, wide: bool, u: seq<u16>)
  {
    && Offset(pos, |u| + 1, wide) <= |s|
    && (forall k :: 0 <= k < |u| ==> u[k] != 0 && u[k] == UnitAt(s, Offset(pos, k, wide), wide))
    && UnitAt(s, Offset(pos, |u|, wide), wide) == 0
  }

  lemma TerminatedStep(s: seq<byte>, pos: nat, wide: bool, c: u16, u: seq<u16>)
    requires pos + UnitWidth(wide) <= |s|
    ensures Terminated(s, pos, wide, [c] + u) <==>
              c != 0 && c == UnitAt(s, pos, wide) && Terminated(s, pos + UnitWidth(wide), wide, u)
  {
    var q := pos + UnitWidth(wide);
    if Terminated(s, pos, wide, [c] + u) {
      forall k | 0 <= k < |u|
        ensures u[k] != 0 && u[k] == UnitAt(s, Offset(q, k, wide), wide)
      {
        assert ([c] + u)[k + 1] == u[k];
      }
      assert ([c] + u)[0] == c && Offset(pos, 0, wide) == pos;
      assert Offset(q, |u|, wide) == Offset(pos, |[c] + u|, wide);
      assert Offset(q, |u| + 1, wide) == Offset(pos, |[c] + u| + 1, wide);
    }
    if c != 0 && c == UnitAt(s, pos, wide) && Terminated(s, q, wide, u) {
      forall k | 0 <= k < |u| + 1
        ensures ([c] + u)[k] != 0 && ([c] + u)[k] == UnitAt(s, Offset(pos, k, wide), wide)
      {
        if k > 0 {
          assert ([c] + u)[k] == u[k - 1];
          assert Offset(q, k - 1, wide) == Offset(pos, k, wide);
        } else {
          assert Offset(pos, k, wide) == pos;
        }
      }
      assert Offset(q, |u|, wide) == Offset(pos, |[c] + u|, wide);
      assert Offset(q, |u| + 1, wide) == Offset(pos, |[c] + u| + 1, wide);
    }
  }

  /** A successful read returns exactly the units before the first zero unit. */
  lemma {:induction false} DecodeStringSound(s: seq<byte>, pos: nat, wide: bool)
    requires pos <= |s|
    requires DecodeString(s, pos, wide).Ok?
    ensures var Parsed(u, p) := DecodeString(s, pos, wide).value;
      Terminated(s, pos, wide, u) && p == Offset(pos, |u| + 1, wide)
    decreases |s| - pos
  {
    var c := UnitAt(s, pos, wide);
    var q := pos + UnitWidth(wide);
    var Parsed(u, p) := DecodeString(s, pos, wide).value;
    if c == 0 {
      assert u == [];
    } else {
      DecodeStringSound(s, q, wide);
      var Parsed(u', p') := DecodeString(s, q, wide).value;
      assert u == [c] + u' && p == p';
      TerminatedStep(s, pos, wide, c, u');
    }
  }

  /** Whenever `u` and a zero unit are encoded at `pos`, the read returns `u`. */
  lemma {:induction false} DecodeStringComplete(s: seq<byte>, pos: nat, wide: bool, u: seq<u16>)
    requires pos <= |s|
    requires Terminated(s, pos, wide, u)
    ensures DecodeString(s, pos, wide) == Ok(Parsed(u, Offset(pos, |u| + 1, wide)))
    decreases |u|
  {
    var q := pos + UnitWidth(wide);
    if u == [] {
    } else {
      var c, tail := u[0], u[1..];
      assert c != 0 && c == UnitAt(s, pos, wide) && Terminated(s, q, wide, tail) by {
        TerminatedStep(s, pos, wide, c, tail);
        assert [c] + tail == u;
      }
      DecodeStringComplete(s, q, wide, tail);
      var next := Offset(q, |tail| + 1, wide);
      StringStep(s, pos, wide, c, tail, next);
      assert [c] + tail == u && next == Offset(pos, |u| + 1, wide);
    }
  }

  /** The read fails exactly when no complete unit from `pos` on is zero. */
  lemma {:induction false} DecodeStringFails(s: seq<byte>, pos: nat, wide: bool)
    requires pos <= |s|
    ensures DecodeString(s, pos, wide).Err? <==>
              forall k: nat :: Offset(pos, k, wide) + UnitWidth(wide) <= |s| ==>
                UnitAt(s, Offset(pos, k, wide), wide) != 0
    decreases |s| - pos
  {
    var q := pos + UnitWidth(wide);
    if q <= |s| {
      DecodeStringFails(s, q, wide);
      if UnitAt(s, pos, wide) != 0 {
        if forall k: nat :: Offset(q, k, wide) + UnitWidth(wide) <= |s| ==> UnitAt(s, Offset(q, k, wide), wide) != 0 {
          forall k: nat | Offset(pos, k, wide) + UnitWidth(wide) <= |s|
            ensures UnitAt(s, Offset(pos, k, wide), wide) != 0
          {
            if k > 0 {
              assert Offset(q, k - 1, wide) == Offset(pos, k, wide);
            }
          }
        } else {
          var k: nat :| Offset(q, k, wide) + UnitWidth(wide) <= |s| && UnitAt(s, Offset(q, k, wide), wide) == 0;
          assert Offset(q, k, wide) == Offset(pos, k + 1, wide);
        }
      } else {
        assert Offset(pos, 0, wide) == pos;
      }
    } else {
      forall k: nat
        ensures Offset(pos, k, wide) + UnitWidth(wide) > |s|
      {
      }
    }
  }

  /** A narrow string holds bytes only. */
  lemma {:induction false} NarrowUnitsAreBytes(s: seq<byte>, pos: nat)
    requires pos <= |s|
    requires DecodeString(s, pos, false).Ok?
    ensures forall k :: 0 <= k < |DecodeString(s, pos, false).value.value| ==>
              DecodeString(s, pos, false).value.value[k] < 0x100
  {
    DecodeStringSound(s, pos, false);
  }
}
