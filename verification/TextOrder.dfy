/** What pins the forms of characters down beyond reading back: their order, and what
    becomes of bytes and units that are no character's form. */
module TextOrder {
  import opened Options
  import opened TextFiles
  import opened Utf16
  import opened Utf8

  /** `a` comes before `b`: smaller where they first differ, or all there is of `b`'s
      beginning. */
  predicate Before(a: seq<int>, b: seq<int>) {
    b != [] && (a == [] || a[0] < b[0] || (a[0] == b[0] && Before(a[1..], b[1..])))
  }

  lemma {:induction false} BeforeIsStrict(a: seq<int>, b: seq<int>)
    ensures Before(a, b) ==> !Before(b, a) && a != b
  {
    if a != [] && b != [] && a[0] == b[0] {
      BeforeIsStrict(a[1..], b[1..]);
    }
  }

  lemma BeforeAtFirst(x: int, y: int, a: seq<int>, b: seq<int>)
    ensures Before([x] + a, [y] + b) <==> x < y || (x == y && Before(a, b))
  {
    assert ([x] + a)[1..] == a && ([y] + b)[1..] == b;
  }

  /** Sorted as bytes, UTF-8 text is sorted as characters: a character's form comes
      before another's exactly when it does. */
  lemma FormsAreOrdered(c: Scalar, d: Scalar)
    ensures Before(EncodeChar(c), EncodeChar(d)) <==> c < d
  {
    hide EncodeChar;
    BeforeIsStrict(EncodeChar(c), EncodeChar(d));
    if c < d {
      SmallerIsBefore(c, d);
    } else if d < c {
      SmallerIsBefore(d, c);
      BeforeIsStrict(EncodeChar(d), EncodeChar(c));
    }
  }

  lemma BeforeTwo(a: seq<int>, b: seq<int>)
    requires |a| == |b| == 2
    ensures Before(a, b) <==> a[0] < b[0] || (a[0] == b[0] && a[1] < b[1])
  {
    assert a == [a[0]] + [a[1]] && b == [b[0]] + [b[1]];
    BeforeAtFirst(a[0], b[0], [a[1]], [b[1]]);
    assert [a[1]] == [a[1]] + [] && [b[1]] == [b[1]] + [];
    BeforeAtFirst(a[1], b[1], [], []);
  }

  lemma BeforeThree(a: seq<int>, b: seq<int>)
    requires |a| == |b| == 3
    ensures Before(a, b) <==> a[0] < b[0] || (a[0] == b[0] && (a[1] < b[1] || (a[1] == b[1] && a[2] < b[2])))
  {
    hide Before;
    assert a == [a[0]] + a[1..] && b == [b[0]] + b[1..];
    BeforeAtFirst(a[0], b[0], a[1..], b[1..]);
    BeforeTwo(a[1..], b[1..]);
  }

  lemma BeforeFour(a: seq<int>, b: seq<int>)
    requires |a| == |b| == 4
    ensures Before(a, b) <==>
            a[0] < b[0] || (a[0] == b[0] && (a[1] < b[1] || (a[1] == b[1] && (a[2] < b[2] || (a[2] == b[2] && a[3] < b[3])))))
  {
    hide Before;
    assert a == [a[0]] + a[1..] && b == [b[0]] + b[1..];
    BeforeAtFirst(a[0], b[0], a[1..], b[1..]);
    BeforeThree(a[1..], b[1..]);
  }

  lemma LeadDecides(a: seq<int>, b: seq<int>)
    requires a != [] && b != [] && a[0] < b[0]
    ensures Before(a, b)
  {
  }

  /** Six bits at a time, as numbers and as digits. */
  lemma DigitsDecide(c: nat, d: nat)
    requires c < d
    ensures c / 64 < d / 64 || (c / 64 == d / 64 && c % 64 < d % 64)
  {
  }

  lemma FormIs(c: Scalar)
    ensures var p, e := c / 64, EncodeChar(c);
            if c < 0x80 then e == [c]
            else if c < 0x800 then e == [0xC0 + p, 0x80 + c % 64]
            else if c < 0x10000 then e == [0xE0 + p / 64, 0x80 + p % 64, 0x80 + c % 64]
            else e == [0xF0 + p / 64 / 64, 0x80 + p / 64 % 64, 0x80 + p % 64, 0x80 + c % 64]
  {
  }

  lemma SmallerIsBefore(c: Scalar, d: Scalar)
    requires c < d
    ensures Before(EncodeChar(c), EncodeChar(d))
  {
    hide EncodeChar, Before;
    FormIs(c);
    FormIs(d);
    var p, r := c / 64, d / 64;
    DigitsDecide(c, d);
    if p < r {
      DigitsDecide(p, r);
      if p / 64 < r / 64 {
        DigitsDecide(p / 64, r / 64);
      }
    }
    var a, b := EncodeChar(c), EncodeChar(d);
    if |a| < |b| {
      LeadDecides(a, b);
    } else if |a| == 1 {
      LeadDecides(a, b);
    } else if |a| == 2 {
      BeforeTwo(a, b);
    } else if |a| == 3 {
      BeforeThree(a, b);
    } else {
      BeforeFour(a, b);
    }
  }

  /** Characters beyond the first plane keep their order as pairs of units. */
  lemma PairsAreOrdered(c: Scalar, d: Scalar)
    requires 0x10000 <= c && 0x10000 <= d
    ensures Before(UnitsOf(c), UnitsOf(d)) <==> c < d
  {
    var x, y := c - 0x10000, d - 0x10000;
    assert x < y <==> x / 0x400 < y / 0x400 || (x / 0x400 == y / 0x400 && x % 0x400 < y % 0x400);
    hide Before;
    BeforeTwo(UnitsOf(c), UnitsOf(d));
  }

  // What is no character's form

  /** A surrogate that begins no pair. */
  predicate Loose(u: Unit, after: Units) {
    IsLow(u) || (High(u) && (after == [] || !IsLow(after[0])))
  }

  /** After whole text, each surrogate that is not one of a pair is one replacement. */
  lemma {:induction false} LooseIsReplaced(t: Text, u: Unit, after: Units)
    requires Loose(u, after)
    ensures FromUnits(ToUnits(t) + [u] + after) == t + [REPLACEMENT] + FromUnits(after)
  {
    hide UnitsOf, FromUnits, Loose;
    if t == [] {
      assert ToUnits(t) + [u] + after == [u] + after;
      FirstLooseRead(u, after);
    } else {
      LooseIsReplaced(t[1..], u, after);
      var before, rest := ToUnits(t[1..]), FromUnits(after);
      Reassociated(UnitsOf(t[0]), before, [u], after);
      FirstUnitsRead(t[0], before + [u] + after);
      Reassociated([t[0]], t[1..], [REPLACEMENT], rest);
      assert t == [t[0]] + t[1..];
    }
  }

  lemma Reassociated<T>(a: seq<T>, b: seq<T>, c: seq<T>, d: seq<T>)
    ensures a + b + c + d == a + (b + c + d)
  {
  }

  lemma FirstLooseRead(u: Unit, after: Units)
    requires Loose(u, after)
    ensures FromUnits([u] + after) == [REPLACEMENT] + FromUnits(after)
  {
    assert ([u] + after)[1..] == after;
  }

  lemma FirstUnitsRead(c: Scalar, rest: Units)
    ensures FromUnits(UnitsOf(c) + rest) == [c] + FromUnits(rest)
  {
    var us := UnitsOf(c) + rest;
    assert us[|UnitsOf(c)|..] == rest;
  }

  /** Some character's form begins so. */
  ghost predicate Begins(p: Bytes) {
    exists c: Scalar :: p <= EncodeChar(c)
  }

  lemma BeginsMeans(p: Bytes, c: Scalar)
    requires p != [] && p <= EncodeChar(c)
    ensures |p| <= Width(p[0])
    ensures |p| >= 2 ==> Second(p[0], p[1])
    ensures |p| >= 3 ==> Tail(p[2])
    ensures |p| >= 4 ==> Tail(p[3])
  {
    FirstOfEncoded(c, []);
    assert EncodeChar(c) + [] == EncodeChar(c);
  }

  lemma BeginsWhen(p: Bytes)
    requires 0 < |p| < Width(p[0])
    requires |p| >= 2 ==> Second(p[0], p[1])
    requires |p| >= 3 ==> Tail(p[2])
    ensures Begins(p)
  {
    var w := Width(p[0]);
    var second: Byte := if p[0] == 0xE0 then 0xA0 else if p[0] == 0xF0 then 0x90 else 0x80;
    var b: Bytes := if |p| == 1 then p + [second, 0x80, 0x80] else p + [0x80, 0x80, 0x80];
    FirstIsEncoded(b);
    assert p <= b[..w];
    assert p <= EncodeChar(First(b).value);
  }

  /** Malformed bytes are taken off as far as they could still have become a
      character, or one byte where not even that could: section 3.9 of the Unicode
      Standard, the substitution of maximal subparts. */
  lemma BadPrefixIsLongest(b: Bytes)
    requires |b| > 0 && First(b).None?
    ensures var n := BadPrefix(b);
            && (n == 1 || Begins(b[..n]))
            && forall m | n < m <= |b| :: !Begins(b[..m])
  {
    var n := BadPrefix(b);
    if n > 1 {
      BeginsWhen(b[..n]);
    }
    forall m | n < m <= |b| ensures !Begins(b[..m]) {
      NotBeyond(b, m);
    }
  }

  lemma NotBeyond(b: Bytes, m: nat)
    requires |b| > 0 && First(b).None? && BadPrefix(b) < m <= |b|
    ensures !Begins(b[..m])
  {
    if c: Scalar :| b[..m] <= EncodeChar(c) {
      BeginsMeans(b[..m], c);
      ShortOfWhole(b, m, c);
    }
  }

  lemma ShortOfWhole(b: Bytes, m: nat, c: Scalar)
    requires 0 < m <= |b| && b[..m] <= EncodeChar(c) && First(b).None?
    ensures m < Width(b[0])
  {
    hide EncodeChar, First;
    FirstOfEncoded(c, []);
    assert EncodeChar(c) + [] == EncodeChar(c);
    if m == |EncodeChar(c)| {
      WholeFormIsFirst(b, m, c);
    }
  }

  lemma WholeFormIsFirst(b: Bytes, m: nat, c: Scalar)
    requires m <= |b| && b[..m] == EncodeChar(c)
    ensures First(b) == Some(c)
  {
    hide EncodeChar, First;
    FirstOfEncoded(c, b[m..]);
    assert b == EncodeChar(c) + b[m..];
  }

  /** Text before malformed bytes comes through, and they become one replacement. */
  lemma {:induction false} MalformedIsReplaced(t: Text, b: Bytes)
    requires |b| > 0 && First(b).None?
    ensures Lossy(Encode(t) + b) == t + [REPLACEMENT] + Lossy(b[BadPrefix(b)..])
  {
    hide EncodeChar, First, Width, BadPrefix, Lossy;
    if t == [] {
      assert Encode(t) + b == b;
      FirstBadRead(b);
    } else {
      MalformedIsReplaced(t[1..], b);
      var before, rest := Encode(t[1..]), Lossy(b[BadPrefix(b)..]);
      assert EncodeChar(t[0]) + before + b == EncodeChar(t[0]) + (before + b);
      FirstFormRead(t[0], before + b);
      Reassociated([t[0]], t[1..], [REPLACEMENT], rest);
      assert t == [t[0]] + t[1..];
    }
  }

  lemma FirstBadRead(b: Bytes)
    requires |b| > 0 && First(b).None?
    ensures Lossy(b) == [REPLACEMENT] + Lossy(b[BadPrefix(b)..])
  {
    hide First, BadPrefix;
  }

  lemma FirstFormRead(c: Scalar, rest: Bytes)
    ensures Lossy(EncodeChar(c) + rest) == [c] + Lossy(rest)
  {
    hide EncodeChar, First, Width, BadPrefix;
    var b := EncodeChar(c) + rest;
    FirstOfEncoded(c, rest);
    FirstIsEncoded(b);
    assert b[|EncodeChar(c)|..] == rest;
  }

  /** One form of each length, after section 7 of RFC 3629 and section 5 of RFC 2781. */
  lemma KnownForms()
    ensures EncodeChar(0x41) == [0x41] && EncodeChar(0x391) == [0xCE, 0x91] && EncodeChar(0x2262) == [0xE2, 0x89, 0xA2]
    ensures EncodeChar(0x233B4) == [0xF0, 0xA3, 0x8E, 0xB4] && UnitsOf(0x12345) == [0xD808, 0xDF45]
  {
  }

  /** In latin-1 the bytes are the characters' own numbers. */
  lemma LatinIsBytes(b: Bytes, t: Text, bom: bool)
    ensures Open(b).encoding.Latin1? ==> Open(b).text == b && !Open(b).bom
    ensures Save(t, Latin1, bom).Ok? <==> forall i | 0 <= i < |t| :: t[i] < 256
    ensures Save(t, Latin1, bom).Ok? ==> Save(t, Latin1, bom).value == t
  {
    UnwritableIsFirst(t);
  }
}
