// Text as Unicode scalar values and its UTF-8 form, section 4 of RFC 3629.
module Utf8 {
  import opened Options

  type Byte = b: int | 0 <= b < 256
  type Scalar = c: int | 0 <= c < 0xD800 || 0xE000 <= c < 0x110000
  type Bytes = seq<Byte>
  type Text = seq<Scalar>

  // Six bits a byte, the lead byte holding what is left.
  function EncodeChar(c: Scalar): Bytes {
    if c < 0x80 then [c]
    else
      var p: int := c / 64;
      var last: Byte := 0x80 + c % 64;
      if p < 0x20 then [0xC0 + p, last]
      else
        var q: int := p / 64;
        if q < 0x10 then [0xE0 + q, 0x80 + p % 64, last]
        else [0xF0 + q / 64, 0x80 + q % 64, 0x80 + p % 64, last]
  }

  function Encode(t: Text): Bytes {
    if |t| == 0 then [] else EncodeChar(t[0]) + Encode(t[1..])
  }

  // A continuation byte, and where the second byte of a form may lie.
  predicate Tail(b: Byte) {
    0x80 <= b < 0xC0
  }

  predicate Second(lead: Byte, b: Byte) {
    && Tail(b)
    && (lead == 0xE0 ==> 0xA0 <= b) && (lead == 0xED ==> b < 0xA0)
    && (lead == 0xF0 ==> 0x90 <= b) && (lead == 0xF4 ==> b < 0x90)
  }

  // How many bytes the lead byte asks for; none when it cannot lead.
  function Width(lead: Byte): nat {
    if lead < 0x80 then 1 else if lead < 0xC2 then 0 else if lead < 0xE0 then 2
    else if lead < 0xF0 then 3 else if lead < 0xF5 then 4 else 0
  }

  // The bits a byte carries above its mark.
  function Low(b: Byte, mark: int): int {
    b - mark
  }

  function Mark(n: nat): int {
    if n == 2 then 0xC0 else if n == 3 then 0xE0 else 0xF0
  }

  // The first character, when the bytes begin with a well-formed one.
  function First(b: Bytes): Option<Scalar> {
    if |b| == 0 then None
    else
      var n := Width(b[0]);
      if n == 1 then Some(b[0])
      else if n == 0 || |b| < n || !Second(b[0], b[1]) then None
      else
        var c: int := Low(b[0], Mark(n)) * 64 + Low(b[1], 0x80);
        if n == 2 then Some(c)
        else if !Tail(b[2]) then None
        else
          var d: int := c * 64 + Low(b[2], 0x80);
          if n == 3 then Some(d)
          else if !Tail(b[3]) then None
          else Some(d * 64 + Low(b[3], 0x80))
  }

  // `str::from_utf8`.
  function Decode(b: Bytes): Option<Text> {
    if |b| == 0 then Some([])
    else if First(b).None? then None
    else
      var n := Width(b[0]);
      if n == 0 || n > |b| then None
      else
        var rest := Decode(b[n..]);
        if rest.None? then None else Some([First(b).value] + rest.value)
  }

  // The two directions agree on one character.
  lemma FirstOfEncoded(c: Scalar, rest: Bytes)
    ensures var b := EncodeChar(c) + rest;
            First(b) == Some(c) && Width(b[0]) == |EncodeChar(c)|
  {
  }

  lemma SixBits(high: int, low: int)
    requires 0 <= low < 64
    ensures (high * 64 + low) / 64 == high && (high * 64 + low) % 64 == low
  {
  }

  lemma FirstIsEncoded(b: Bytes)
    requires First(b).Some?
    ensures var n := Width(b[0]); 0 < n <= |b| && EncodeChar(First(b).value) == b[..n]
  {
    var n := Width(b[0]);
    if n == 1 {
      assert b[..1] == [b[0]];
    } else {
      var lead, one := Low(b[0], Mark(n)), Low(b[1], 0x80);
      SixBits(lead, one);
      var p := lead * 64 + one;
      if n == 2 {
        assert b[..2] == [b[0], b[1]];
      } else {
        var two := Low(b[2], 0x80);
        SixBits(p, two);
        if n == 3 {
          assert b[..3] == [b[0], b[1], b[2]];
        } else {
          SixBits(p * 64 + two, Low(b[3], 0x80));
          assert b[..4] == [b[0], b[1], b[2], b[3]];
        }
      }
    }
  }

  lemma {:induction false} DecodeEncoded(t: Text)
    ensures Decode(Encode(t)) == Some(t)
  {
    hide EncodeChar, First, Width;
    if |t| > 0 {
      FirstOfEncoded(t[0], Encode(t[1..]));
      FirstIsEncoded(Encode(t));
      DecodeEncoded(t[1..]);
      assert Encode(t)[|EncodeChar(t[0])|..] == Encode(t[1..]);
      assert [t[0]] + t[1..] == t;
    }
  }

  lemma {:induction false} EncodeDecoded(b: Bytes)
    requires Decode(b).Some?
    ensures Encode(Decode(b).value) == b
  {
    hide EncodeChar, First, Width;
    if |b| > 0 {
      FirstIsEncoded(b);
      var n := Width(b[0]);
      EncodeDecoded(b[n..]);
      var t := Decode(b).value;
      assert t[1..] == Decode(b[n..]).value;
      assert b == b[..n] + b[n..];
    }
  }

  /** Well-formed bytes are exactly the forms of texts, one form a text. */
  lemma DecodesIffEncodes(b: Bytes, t: Text)
    ensures Decode(b) == Some(t) <==> Encode(t) == b
  {
    DecodeEncoded(t);
    if Decode(b).Some? { EncodeDecoded(b); }
  }
}
