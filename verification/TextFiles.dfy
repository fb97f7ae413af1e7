// src/encoding.rs: a file's bytes to text and back.
module TextFiles {
  import opened Options
  import opened Utf8
  import opened Utf16

  datatype Encoding = Utf8Text | Latin1 | Utf16Le | Utf16Be

  /** What opening a file yields; saving takes the same three. */
  datatype Decoded = Decoded(text: Text, encoding: Encoding, bom: bool)

  datatype Unrepresentable = Unrepresentable(ch: Scalar, encoding: Encoding)

  const UTF8_BOM: Bytes := [0xEF, 0xBB, 0xBF]
  const LE_BOM: Bytes := [0xFF, 0xFE]
  const BE_BOM: Bytes := [0xFE, 0xFF]
  const MARK: Unit := 0xFEFF

  // How far a malformed form gets before it goes wrong.
  function BadPrefix(b: Bytes): (n: nat)
    requires |b| > 0 && First(b).None?
    ensures 0 < n <= |b|
  {
    var w := Width(b[0]);
    if w < 2 || |b| < 2 || !Second(b[0], b[1]) then 1
    else if |b| < 3 || !Tail(b[2]) then 2
    else 3
  }

  // `String::from_utf8_lossy`.
  function Lossy(b: Bytes): Text
    decreases |b|
  {
    if |b| == 0 then []
    else if First(b).Some? then
      FirstIsEncoded(b);
      [First(b).value] + Lossy(b[Width(b[0])..])
    else [REPLACEMENT] + Lossy(b[BadPrefix(b)..])
  }

  function Open(b: Bytes): Decoded {
    if UTF8_BOM <= b then Decoded(Lossy(b[3..]), Utf8Text, true)
    else if LE_BOM <= b then Decoded(FromUnits(FromBytes(b[2..], false)), Utf16Le, true)
    else if BE_BOM <= b then Decoded(FromUnits(FromBytes(b[2..], true)), Utf16Be, true)
    else
      var text := Decode(b);
      if text.Some? then Decoded(text.value, Utf8Text, false) else Decoded(b, Latin1, false)
  }

  // The first character that latin-1 has no byte for.
  function Unwritable(t: Text): Option<Scalar> {
    if |t| == 0 then None
    else
      var before := Unwritable(t[..|t| - 1]);
      if before.Some? then before else if t[|t| - 1] < 256 then None else Some(t[|t| - 1])
  }

  lemma {:induction false} UnwritableIsFirst(t: Text)
    ensures var ch := Unwritable(t);
            && (ch.None? <==> forall i :: 0 <= i < |t| ==> t[i] < 256)
            && (ch.Some? ==> exists i :: 0 <= i < |t| && t[i] == ch.value && ch.value >= 256
                               && forall j :: 0 <= j < i ==> t[j] < 256)
  {
    if |t| > 0 { UnwritableIsFirst(t[..|t| - 1]); }
  }

  function Save(text: Text, encoding: Encoding, bom: bool): Result<Bytes, Unrepresentable> {
    match encoding
    case Utf8Text => Ok((if bom then UTF8_BOM else []) + Encode(text))
    case Latin1 =>
      UnwritableIsFirst(text);
      if Unwritable(text).Some? then Err(Unrepresentable(Unwritable(text).value, Latin1)) else Ok(text)
    case Utf16Le => Ok(ToBytes([MARK] + ToUnits(text), false))
    case Utf16Be => Ok(ToBytes([MARK] + ToUnits(text), true))
  }

  // What a byte order mark promises and the bytes after it break.
  predicate MalformedAfterMark(b: Bytes) {
    if UTF8_BOM <= b then Decode(b[3..]).None?
    else if LE_BOM <= b then !WellFormed16(b[2..], false)
    else BE_BOM <= b && !WellFormed16(b[2..], true)
  }

  predicate WellFormed16(b: Bytes, bigEndian: bool) {
    |b| % 2 == 0 && Paired(FromBytes(b, bigEndian))
  }

  lemma {:induction false} LossyOfText(b: Bytes)
    requires Decode(b).Some?
    ensures Lossy(b) == Decode(b).value
  {
    hide First, Width, BadPrefix;
    if |b| > 0 {
      FirstIsEncoded(b);
      LossyOfText(b[Width(b[0])..]);
    }
  }

  // Reading and writing back after a UTF-16 mark.
  lemma Utf16ReadBack(b: Bytes, bigEndian: bool)
    ensures ToBytes(ToUnits(FromUnits(FromBytes(b, bigEndian))), bigEndian) == b <==> WellFormed16(b, bigEndian)
  {
    hide ToBytes, FromBytes, ToUnits, FromUnits, Paired;
    var us := FromBytes(b, bigEndian);
    UnitsReadBack(b, bigEndian);
    var text := FromUnits(us);
    var written := ToUnits(text);
    UnitsArePaired(text);
    BytesReadBack(written, bigEndian);
    if WellFormed16(b, bigEndian) {
      PairedReadBack(us);
      assert b[..|b| / 2 * 2] == b;
    }
  }

  lemma MarkedBytes(us: Units, bigEndian: bool)
    ensures ToBytes([MARK] + us, bigEndian) == (if bigEndian then BE_BOM else LE_BOM) + ToBytes(us, bigEndian)
  {
    BytesAppend([MARK], us, bigEndian);
    assert [MARK][..0] == [];
  }

  /** Opening a file and saving it leaves it byte for byte as it was, exactly
    * when no byte order mark is followed by bytes malformed in what it declares. */
  lemma OpenThenSave(b: Bytes)
    ensures var d := Open(b);
            Save(d.text, d.encoding, d.bom) == Ok(b) <==> !MalformedAfterMark(b)
  {
    hide ToBytes, FromBytes, ToUnits, FromUnits, Paired, Decode, Encode, Lossy, WellFormed16, Unwritable;
    var d := Open(b);
    if UTF8_BOM <= b {
      var tail := b[3..];
      assert b == UTF8_BOM + tail;
      assert (UTF8_BOM + Encode(d.text))[3..] == Encode(d.text);
      if Decode(tail).Some? {
        LossyOfText(tail);
        EncodeDecoded(tail);
      } else {
        DecodeEncoded(d.text);
      }
    } else if LE_BOM <= b || BE_BOM <= b {
      var bigEndian := !(LE_BOM <= b);
      var mark, tail := if bigEndian then BE_BOM else LE_BOM, b[2..];
      assert b == mark + tail;
      Utf16ReadBack(tail, bigEndian);
      MarkedBytes(ToUnits(d.text), bigEndian);
      assert (mark + ToBytes(ToUnits(d.text), bigEndian))[2..] == ToBytes(ToUnits(d.text), bigEndian);
    } else if Decode(b).Some? {
      EncodeDecoded(b);
      assert [] + b == b;
    } else {
      UnwritableIsFirst(b);
    }
  }

  // UTF-8 begins with neither of the bytes that a UTF-16 mark does.
  lemma TextHasNoUtf16Mark(t: Text)
    ensures !(LE_BOM <= Encode(t)) && !(BE_BOM <= Encode(t))
    ensures UTF8_BOM <= Encode(t) <==> |t| > 0 && t[0] == MARK
  {
    hide EncodeChar;
    if |t| > 0 {
      var rest := Encode(t[1..]);
      FirstOfEncoded(t[0], rest);
      MarkInFront(Encode(t));
    }
  }

  lemma MarkInFront(b: Bytes)
    requires First(b).Some?
    ensures b[0] < 0xF5 && (UTF8_BOM <= b <==> First(b).value == MARK)
  {
    FirstIsEncoded(b);
    assert EncodeChar(MARK) == UTF8_BOM;
    if UTF8_BOM <= b {
      assert b == UTF8_BOM + b[3..];
      FirstOfEncoded(MARK, b[3..]);
    }
  }

  // A mark in front, whoever put it there.
  predicate Marked(b: Bytes) {
    UTF8_BOM <= b || LE_BOM <= b || BE_BOM <= b
  }

  predicate IsAscii(t: Text) {
    forall i :: 0 <= i < |t| ==> t[i] < 0x80
  }

  /** What to check of a text before saving it, for the file to open as saved: for
    * plain UTF-8, that it does not begin with the mark's character; for latin-1,
    * that its bytes begin with no mark and are not UTF-8. */
  predicate OpensAsSaved(t: Text, encoding: Encoding, bom: bool)
    requires Unwritable(t).None? || !encoding.Latin1?
  {
    UnwritableIsFirst(t);
    match encoding
    case Utf8Text => bom || |t| == 0 || t[0] != MARK
    case Latin1 => !Marked(t) && Decode(t).None?
    case _ => true
  }

  /** Saving succeeds except for latin-1 and a character beyond it; and the file
    * then opens as it was saved, encoding and mark included, exactly when
    * `OpensAsSaved` says so. */
  lemma SaveThenOpen(t: Text, encoding: Encoding, bom: bool)
    ensures Save(t, encoding, bom).Ok? <==> !encoding.Latin1? || Unwritable(t).None?
    ensures Save(t, encoding, bom).Ok? ==>
              var mark := if encoding.Utf8Text? then bom else !encoding.Latin1?;
              Open(Save(t, encoding, bom).value) == Decoded(t, encoding, mark) <==> OpensAsSaved(t, encoding, bom)
  {
    hide ToBytes, FromBytes, ToUnits, FromUnits, Paired, Decode, Encode, Lossy, Unwritable;
    if encoding.Utf8Text? {
      var b := Save(t, encoding, bom).value;
      DecodeEncoded(t);
      TextHasNoUtf16Mark(t);
      if bom {
        assert b[3..] == Encode(t);
        LossyOfText(Encode(t));
      } else {
        assert b == Encode(t);
      }
    } else if !encoding.Latin1? {
      var b := Save(t, encoding, bom).value;
      var bigEndian := encoding.Utf16Be?;
      MarkedBytes(ToUnits(t), bigEndian);
      assert b == (if bigEndian then BE_BOM else LE_BOM) + ToBytes(ToUnits(t), bigEndian);
      assert b[2..] == ToBytes(ToUnits(t), bigEndian) && b[0] == if bigEndian then 0xFE else 0xFF;
      BytesReadBack(ToUnits(t), bigEndian);
      UnitsArePaired(t);
    }
  }

  /** Nor is all UTF-8 text what it was saved as: U+FEFF alone opens as a mark and
    * no text. */
  lemma MarkIsNotText()
    ensures var t: Text := [MARK];
            && Save(t, Utf8Text, false) == Ok(UTF8_BOM)
            && Open(UTF8_BOM) == Decoded([], Utf8Text, true)
  {
    var t: Text := [MARK];
    assert Encode(t) == EncodeChar(MARK) + Encode(t[1..]) == UTF8_BOM;
    assert [] + Encode(t) == UTF8_BOM;
    assert UTF8_BOM[3..] == [] && Lossy([]) == [];
  }

  /** A latin-1 file does not always stay one: these two characters open as one. */
  lemma LatinCanReopenAsUtf8()
    ensures var t: Text := [0xC3, 0xA9];
            Save(t, Latin1, false) == Ok(t) && Open(t) == Decoded([0xE9], Utf8Text, false)
  {
    var t: Text := [0xC3, 0xA9];
    UnwritableIsFirst(t);
    assert Unwritable(t).None?;
    var e: Text := [0xE9];
    assert Encode(e) == EncodeChar(0xE9) + Encode(e[1..]) == t;
    DecodeEncoded(e);
    assert t[0] == 0xC3;
  }

  // Decoding never makes more characters than there are bytes, and fewer once
  // some byte is not a character by itself.
  lemma {:induction false} DecodedIsShorter(b: Bytes)
    requires Decode(b).Some?
    ensures |Decode(b).value| <= |b|
    ensures |Decode(b).value| == |b| <==> IsAscii(b)
    ensures IsAscii(b) ==> Decode(b).value == b
  {
    hide First;
    if |b| > 0 {
      FirstIsEncoded(b);
      var n := Width(b[0]);
      DecodedIsShorter(b[n..]);
      OneByteWide(b);
    }
  }

  lemma OneByteWide(b: Bytes)
    requires First(b).Some?
    ensures Width(b[0]) == 1 <==> b[0] < 0x80
    ensures b[0] < 0x80 ==> First(b).value == b[0]
  {
  }

  lemma {:induction false} LossyIsShorter(b: Bytes)
    ensures |Lossy(b)| <= |b|
    decreases |b|
  {
    hide First, BadPrefix;
    if |b| > 0 {
      if First(b).Some? {
        FirstIsEncoded(b);
        LossyIsShorter(b[Width(b[0])..]);
      } else {
        LossyIsShorter(b[BadPrefix(b)..]);
      }
    }
  }

  lemma UnitsAreShorter(b: Bytes, bigEndian: bool)
    ensures |FromUnits(FromBytes(b, bigEndian))| <= |FromBytes(b, bigEndian)| <= |b|
  {
    UnitsCount(b, bigEndian);
    CharsCount(FromBytes(b, bigEndian));
  }

  lemma {:induction false} UnitsCount(b: Bytes, bigEndian: bool)
    ensures |FromBytes(b, bigEndian)| <= |b|
  {
    if |b| >= 2 { UnitsCount(b[2..], bigEndian); }
  }

  lemma {:induction false} CharsCount(us: Units)
    ensures |FromUnits(us)| <= |us|
  {
    if |us| > 0 {
      CharsCount(us[1..]);
      if |us| > 1 { CharsCount(us[2..]); }
    }
  }

  /** The text itself comes back from latin-1, under whatever encoding, exactly
    * when its bytes begin with no mark and are either not UTF-8 or all ASCII. */
  lemma LatinTextReturns(t: Text)
    requires Unwritable(t).None?
    ensures Save(t, Latin1, false).Ok? && Save(t, Latin1, true) == Save(t, Latin1, false)
    ensures Open(Save(t, Latin1, false).value).text == t <==> !Marked(t) && (Decode(t).None? || IsAscii(t))
  {
    hide Decode, Lossy, FromUnits, FromBytes, Unwritable;
    UnwritableIsFirst(t);
    if UTF8_BOM <= t {
      LossyIsShorter(t[3..]);
    } else if LE_BOM <= t || BE_BOM <= t {
      UnitsAreShorter(t[2..], !(LE_BOM <= t));
    } else if Decode(t).Some? {
      DecodedIsShorter(t);
    }
  }

  // `encode`: a loop over characters or units, stopping at one latin-1 lacks.
  method EncodeText(text: Text, encoding: Encoding, bom: bool) returns (r: Result<Bytes, Unrepresentable>)
    ensures r == Save(text, encoding, bom)
  {
    hide Encode, ToUnits;
    var out: Bytes := [];
    match encoding {
      case Utf8Text =>
        if bom {
          out := out + UTF8_BOM;
        }
        out := out + Encode(text);
      case Latin1 =>
        var i := 0;
        while i < |text|
          invariant 0 <= i <= |text| && out == text[..i] && Unwritable(text[..i]).None?
        {
          assert text[..i + 1][..i] == text[..i];
          if text[i] >= 256 {
            UnwritableStays(text, i + 1);
            return Err(Unrepresentable(text[i], Latin1));
          }
          out := out + [text[i]];
          i := i + 1;
        }
        assert text[..i] == text;
      case _ =>
        var bigEndian := encoding.Utf16Be?;
        var units, i := ToUnits(text), 0;
        out := Pair(MARK, bigEndian);
        assert [MARK][..0] == [];
        while i < |units|
          invariant 0 <= i <= |units| && out == ToBytes([MARK] + units[..i], bigEndian)
        {
          assert ([MARK] + units[..i + 1])[..i + 1] == [MARK] + units[..i];
          out := out + Pair(units[i], bigEndian);
          i := i + 1;
        }
        assert units[..i] == units;
    }
    assert encoding.Utf8Text? ==> out == (if bom then UTF8_BOM else []) + Encode(text);
    return Ok(out);
  }

  lemma {:induction false} UnwritableStays(t: Text, k: nat)
    requires k <= |t| && Unwritable(t[..k]).Some?
    ensures Unwritable(t) == Unwritable(t[..k])
    decreases |t|
  {
    if k < |t| {
      assert t[..|t| - 1][..k] == t[..k];
      UnwritableStays(t[..|t| - 1], k);
    } else {
      assert t[..k] == t;
    }
  }
}
