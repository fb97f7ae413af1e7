// Text as UTF-16 code units, and those as bytes in either order, section 2 of
// RFC 2781.
module Utf16 {
  import opened Utf8

  type Unit = u: int | 0 <= u < 0x10000
  type Units = seq<Unit>

  const REPLACEMENT: Scalar := 0xFFFD

  predicate High(u: Unit) {
    0xD800 <= u < 0xDC00
  }

  predicate IsLow(u: Unit) {
    0xDC00 <= u < 0xE000
  }

  function UnitsOf(c: Scalar): Units {
    if c < 0x10000 then [c] else [0xD800 + (c - 0x10000) / 0x400, 0xDC00 + (c - 0x10000) % 0x400]
  }

  // Section 2.1 of RFC 2781.
  function ToUnits(t: Text): Units {
    if |t| == 0 then [] else UnitsOf(t[0]) + ToUnits(t[1..])
  }

  // Section 2.2, `String::from_utf16_lossy`: an unpaired surrogate is replaced.
  function FromUnits(us: Units): Text {
    if |us| == 0 then []
    else if High(us[0]) && |us| >= 2 && IsLow(us[1]) then
      [0x10000 + (us[0] - 0xD800) * 0x400 + (us[1] - 0xDC00)] + FromUnits(us[2..])
    else
      [if High(us[0]) || IsLow(us[0]) then REPLACEMENT else us[0]] + FromUnits(us[1..])
  }

  // Every surrogate is one of a pair.
  predicate Paired(us: Units) {
    |us| == 0
    || (if High(us[0]) then |us| >= 2 && IsLow(us[1]) && Paired(us[2..]) else !IsLow(us[0]) && Paired(us[1..]))
  }

  lemma {:induction false} UnitsArePaired(t: Text)
    ensures Paired(ToUnits(t)) && FromUnits(ToUnits(t)) == t
  {
    if |t| > 0 {
      UnitsArePaired(t[1..]);
      assert [t[0]] + t[1..] == t;
      var us := ToUnits(t);
      assert us[|UnitsOf(t[0])|..] == ToUnits(t[1..]);
    }
  }

  lemma {:induction false} PairedReadBack(us: Units)
    requires Paired(us)
    ensures ToUnits(FromUnits(us)) == us
  {
    if |us| > 0 {
      var n := if High(us[0]) then 2 else 1;
      PairedReadBack(us[n..]);
      var t := FromUnits(us);
      assert t[1..] == FromUnits(us[n..]);
      assert us == us[..n] + us[n..];
      assert UnitsOf(t[0]) == us[..n];
    }
  }

  function Pair(u: Unit, bigEndian: bool): (b: Bytes)
    ensures |b| == 2
  {
    if bigEndian then [u / 256, u % 256] else [u % 256, u / 256]
  }

  function Join(first: Byte, second: Byte, bigEndian: bool): Unit {
    var (high: int, low: int) := if bigEndian then (first, second) else (second, first);
    high * 256 + low
  }

  lemma PairJoins(u: Unit, a: Byte, b: Byte, bigEndian: bool)
    ensures Pair(u, bigEndian) == [a, b] <==> u == Join(a, b, bigEndian)
  {
  }

  function ToBytes(us: Units, bigEndian: bool): Bytes {
    var n := |us|;
    if n == 0 then [] else ToBytes(us[..n - 1], bigEndian) + Pair(us[n - 1], bigEndian)
  }

  // Whole pairs only: an odd byte at the end is dropped.
  function FromBytes(b: Bytes, bigEndian: bool): Units {
    if |b| < 2 then []
    else [Join(b[0], b[1], bigEndian)] + FromBytes(b[2..], bigEndian)
  }

  lemma {:induction false} BytesAppend(us: Units, vs: Units, bigEndian: bool)
    ensures ToBytes(us + vs, bigEndian) == ToBytes(us, bigEndian) + ToBytes(vs, bigEndian)
  {
    hide Pair;
    var n := |vs|;
    if n == 0 {
      assert us + vs == us;
    } else {
      BytesAppend(us, vs[..n - 1], bigEndian);
      assert (us + vs)[..|us| + n - 1] == us + vs[..n - 1];
    }
  }

  lemma {:induction false} BytesReadBack(us: Units, bigEndian: bool)
    ensures FromBytes(ToBytes(us, bigEndian), bigEndian) == us
    ensures |ToBytes(us, bigEndian)| == 2 * |us|
  {
    hide Pair, Join;
    if |us| > 0 {
      var rest := us[1..];
      assert us == [us[0]] + rest;
      BytesAppend([us[0]], rest, bigEndian);
      assert ToBytes([us[0]], bigEndian) == Pair(us[0], bigEndian) by { assert [us[0]][..0] == []; }
      BytesReadBack(rest, bigEndian);
      var pair := Pair(us[0], bigEndian);
      PairJoins(us[0], pair[0], pair[1], bigEndian);
      assert ToBytes(us, bigEndian)[2..] == ToBytes(rest, bigEndian);
    }
  }

  lemma {:induction false} UnitsReadBack(b: Bytes, bigEndian: bool)
    ensures ToBytes(FromBytes(b, bigEndian), bigEndian) == b[..|b| / 2 * 2]
  {
    hide Pair, Join;
    if |b| >= 2 {
      var u, rest := Join(b[0], b[1], bigEndian), b[2..];
      UnitsReadBack(rest, bigEndian);
      BytesAppend([u], FromBytes(rest, bigEndian), bigEndian);
      assert ToBytes([u], bigEndian) == Pair(u, bigEndian) by { assert [u][..0] == []; }
      PairJoins(u, b[0], b[1], bigEndian);
      EvenPart(b);
    }
  }

  lemma EvenPart(b: Bytes)
    requires |b| >= 2
    ensures b[..|b| / 2 * 2] == [b[0], b[1]] + b[2..][..(|b| - 2) / 2 * 2]
  {
  }
}
