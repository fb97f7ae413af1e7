/** Header blocks of any number of lines, and what is taken after one. */
module FrameBlocks {
  import opened Options
  import opened FrameHeaders
  import opened Framing
  import opened Texts
  import opened Utf8

  // A length

  /** A length is written in digits, after one plus at most, and fits a machine word. */
  lemma LengthsRead(n: nat)
    ensures var read := if n < USIZE_END then Some(n) else None;
            ParseUsize(Printed(n)) == read && ParseUsize([PLUS] + Printed(n)) == read
  {
    hide Digits, Printed;
    PrintedIsDigits(n);
    assert ([PLUS] + Printed(n))[1..] == Printed(n);
  }

  /** And no other text reads as one. */
  lemma OnlyLengthsRead(t: Text)
    ensures ParseUsize(t).Some? ==>
              && t != [] && IsDigit(t[|t| - 1])
              && (forall k :: 0 < k < |t| ==> IsDigit(t[k]))
              && (IsDigit(t[0]) || t[0] == PLUS)
    ensures t != [] && (forall k :: 0 <= k < |t| ==> IsDigit(t[k])) ==>
              Digits(t).Some? && ParseUsize(t) == if Digits(t).value < USIZE_END then Digits(t) else None
  {
    DigitsThroughout(t);
    if t != [] {
      DigitsThroughout(t[1..]);
      assert forall k :: 0 < k < |t| ==> t[k] == t[1..][k - 1];
    }
  }

  // One line

  predicate FirstColonAt(line: Text, i: nat) {
    i < |line| && line[i] == COLON && COLON !in line[..i]
  }

  /** The line's field is named content-length and has this value. */
  predicate HasLength(line: Text, value: Text) {
    exists i: nat | i < |line| :: FirstColonAt(line, i) && IsContentLength(Trim(line[..i])) && value == Trim(line[i + 1..])
  }

  /** It gives a length within the limit. */
  predicate GivesLength(line: Text, n: nat) {
    n <= MAX_CONTENT_LENGTH && exists i: nat | i < |line| ::
      FirstColonAt(line, i) && IsContentLength(Trim(line[..i])) && ParseUsize(Trim(line[i + 1..])) == Some(n)
  }

  /** What makes a line one that ends everything. */
  predicate Breaks(line: Text, why: Why) {
    match why
    case NoColon(l) => l == line && COLON !in line
    case Unparseable(value) => HasLength(line, value) && ParseUsize(value).None?
    case TooLong(n) => n > MAX_CONTENT_LENGTH && exists i: nat | i < |line| ::
      FirstColonAt(line, i) && IsContentLength(Trim(line[..i])) && ParseUsize(Trim(line[i + 1..])) == Some(n)
    case _ => false
  }

  lemma {:induction false} ColonIsFirst(line: Text)
    ensures ColonAt(line) == |line| <==> COLON !in line
    ensures ColonAt(line) < |line| ==> FirstColonAt(line, ColonAt(line))
  {
    if |line| > 0 && line[0] != COLON {
      var rest, k := line[1..], ColonAt(line[1..]);
      ColonIsFirst(rest);
      assert line == [line[0]] + rest;
      assert line[..k + 1] == [line[0]] + rest[..k];
    }
  }

  lemma OneFirstColon(line: Text, i: nat, k: nat)
    requires FirstColonAt(line, i) && FirstColonAt(line, k)
    ensures i == k
  {
    if i < k {
      InPrefix(line, i, k);
    } else if k < i {
      InPrefix(line, k, i);
    }
  }

  lemma InPrefix(line: Text, i: nat, k: nat)
    requires i < k <= |line|
    ensures line[i] in line[..k]
  {
    assert line[..k][i] == line[i];
  }

  lemma NotInRest<T>(s: seq<T>, c: T)
    requires s != [] && c !in s
    ensures c !in s[1..] && c != s[0]
  {
    assert s == [s[0]] + s[1..];
  }

  /** A line is refused for what breaks it, gives the length it gives, and any other
      leaves the length as it is. */
  lemma LineReads(line: Text, length: Option<nat>, why: Why, n: nat)
    ensures ReadLine(line, length) == Err(why) <==> Breaks(line, why)
    ensures GivesLength(line, n) ==> ReadLine(line, length) == Ok(Some(n))
    ensures ReadLine(line, length).Ok? && ReadLine(line, length) != Ok(length) ==> exists m :: GivesLength(line, m)
  {
    hide ColonAt, Trim, IsContentLength, ParseUsize;
    var i := ColonAt(line);
    ColonIsFirst(line);
    if i < |line| {
      forall k: nat | FirstColonAt(line, k) ensures k == i {
        OneFirstColon(line, i, k);
      }
      assert line[i] == COLON;
      if IsContentLength(Trim(line[..i])) && ParseUsize(Trim(line[i + 1..])).Some? {
        var m := ParseUsize(Trim(line[i + 1..])).value;
        assert m <= MAX_CONTENT_LENGTH ==> GivesLength(line, m);
      }
    }
  }

  // A block

  /** Line `k` is the last that gives a length. */
  ghost predicate LastLength(lines: seq<Text>, k: nat, n: nat) {
    k < |lines| && GivesLength(lines[k], n) && forall j, m: nat | k < j < |lines| :: !GivesLength(lines[j], m)
  }

  /** Line `k` is the first that breaks the block. */
  ghost predicate FirstBreak(lines: seq<Text>, k: nat, why: Why) {
    k < |lines| && Breaks(lines[k], why) && forall j, y: Why | 0 <= j < k :: !Breaks(lines[j], y)
  }

  ghost predicate Unbroken(lines: seq<Text>) {
    forall j, y: Why | 0 <= j < |lines| :: !Breaks(lines[j], y)
  }

  ghost predicate Lengthless(lines: seq<Text>) {
    forall j, m: nat | 0 <= j < |lines| :: !GivesLength(lines[j], m)
  }

  /** A block is refused for its first line that breaks it; else it gives the length
      that the last line giving one gives, wherever that stands, or none. */
  lemma {:induction false} BlockReads(lines: seq<Text>)
    ensures forall k: nat, why | FirstBreak(lines, k, why) :: ReadLines(lines) == Err(why)
    ensures forall k: nat, n: nat | Unbroken(lines) && LastLength(lines, k, n) :: ReadLines(lines) == Ok(Some(n))
    ensures Unbroken(lines) && Lengthless(lines) ==> ReadLines(lines) == Ok(None)
    ensures ReadLines(lines).Err? ==> !Unbroken(lines)
  {
    if lines != [] {
      hide Breaks, GivesLength, ReadLine;
      var n := |lines| - 1;
      var before := lines[..n];
      BlockReads(before);
      assert forall j | 0 <= j < n :: before[j] == lines[j];
      forall k: nat, why | FirstBreak(lines, k, why) ensures ReadLines(lines) == Err(why) {
        FirstBreakReads(lines, k, why);
      }
      LastLineReads(lines);
    }
  }

  lemma FirstBreakReads(lines: seq<Text>, k: nat, why: Why)
    requires FirstBreak(lines, k, why)
    requires var before := lines[..|lines| - 1];
             && (forall i: nat, y | FirstBreak(before, i, y) :: ReadLines(before) == Err(y))
             && (ReadLines(before).Err? ==> !Unbroken(before))
    ensures ReadLines(lines) == Err(why)
  {
    hide Breaks, GivesLength, ReadLine;
    var n := |lines| - 1;
    var before := lines[..n];
    if k < n {
      assert FirstBreak(before, k, why);
    } else {
      assert Unbroken(before);
      LineReads(lines[n], ReadLines(before).value, why, 0);
    }
  }

  lemma LastLineReads(lines: seq<Text>)
    requires lines != []
    requires var before := lines[..|lines| - 1];
             && (forall k: nat, n: nat | Unbroken(before) && LastLength(before, k, n) :: ReadLines(before) == Ok(Some(n)))
             && (Unbroken(before) && Lengthless(before) ==> ReadLines(before) == Ok(None))
             && (ReadLines(before).Err? ==> !Unbroken(before))
    ensures forall k: nat, n: nat | Unbroken(lines) && LastLength(lines, k, n) :: ReadLines(lines) == Ok(Some(n))
    ensures Unbroken(lines) && Lengthless(lines) ==> ReadLines(lines) == Ok(None)
    ensures ReadLines(lines).Err? ==> !Unbroken(lines)
  {
    hide Breaks, GivesLength, ReadLine;
    var last := |lines| - 1;
    var before, line := lines[..last], lines[last];
    assert forall j | 0 <= j < last :: before[j] == lines[j];
    if ReadLines(before).Ok? {
      var length := ReadLines(before).value;
      var read := ReadLine(line, length);
      LineReads(line, length, if read.Err? then read.error else NoContentLength, 0);
      forall k: nat, n: nat | Unbroken(lines) && LastLength(lines, k, n) ensures ReadLines(lines) == Ok(Some(n)) {
        LineReads(line, length, NoContentLength, n);
        assert k < last ==> LastLength(before, k, n);
      }
    }
  }

  /** One line named so among others gives its length, wherever it stands. */
  lemma OnlyLengthIsRead(lines: seq<Text>, j: nat, n: nat)
    requires j < |lines| && GivesLength(lines[j], n)
    requires forall k | 0 <= k < |lines| && k != j :: COLON in lines[k] && forall value :: !HasLength(lines[k], value)
    ensures ReadLines(lines) == Ok(Some(n))
  {
    BlockReads(lines);
    forall k, m: nat | j < k < |lines| ensures !GivesLength(lines[k], m) {
      OnlyHasLengthGives(lines[k], m);
    }
    assert LastLength(lines, j, n);
    forall k, why: Why | 0 <= k < |lines| ensures !Breaks(lines[k], why) {
      if k == j {
        LineReads(lines[j], None, why, n);
      } else {
        OtherLineIsSound(lines[k], why);
      }
    }
  }

  lemma LengthIsNamed(line: Text, i: nat)
    requires i < |line| && FirstColonAt(line, i) && IsContentLength(Trim(line[..i]))
    ensures HasLength(line, Trim(line[i + 1..]))
  {
    hide IsContentLength, Trim;
    assert line[i] == COLON;
  }

  lemma OnlyHasLengthGives(line: Text, n: nat)
    requires forall value :: !HasLength(line, value)
    ensures !GivesLength(line, n)
  {
    hide FirstColonAt, IsContentLength, Trim, ParseUsize, HasLength;
    if GivesLength(line, n) {
      var i: nat :| i < |line| && FirstColonAt(line, i) && IsContentLength(Trim(line[..i])) && ParseUsize(Trim(line[i + 1..])) == Some(n);
      LengthIsNamed(line, i);
    }
  }

  lemma OtherLineIsSound(line: Text, why: Why)
    requires COLON in line && forall value :: !HasLength(line, value)
    ensures !Breaks(line, why)
  {
    hide FirstColonAt, IsContentLength, Trim, ParseUsize, HasLength;
    if why.TooLong? && Breaks(line, why) {
      var i: nat :| i < |line| && FirstColonAt(line, i) && IsContentLength(Trim(line[..i])) && ParseUsize(Trim(line[i + 1..])) == Some(why.length);
      LengthIsNamed(line, i);
    }
  }

  /** The name counts in any letter case. */
  lemma AnyCase(name: Text)
    ensures var wanted := Ascii("content-length");
            IsContentLength(name) <==>
            |name| == |wanted| && forall i | 0 <= i < |name| :: name[i] == wanted[i] || (wanted[i] != 45 && name[i] == wanted[i] - 32)
  {
    var wanted := Ascii("content-length");
    assert forall i | 0 <= i < |wanted| :: wanted[i] == 45 || 97 <= wanted[i] <= 122;
  }

  // A block as it is written

  /** The lines with a line end between each two. */
  function Joined(lines: seq<Text>): Text {
    if lines == [] then [] else if |lines| == 1 then lines[0] else lines[0] + [CR, LF] + Joined(lines[1..])
  }

  /** A line as a header block may hold it: not empty, and no carriage return. */
  predicate IsLine(line: Text) {
    line != [] && CR !in line
  }

  lemma {:induction false} FirstLineEnd(line: Text, rest: Text)
    requires CR !in line
    ensures LineEnd(line + [CR, LF] + rest) == |line|
  {
    var t := line + [CR, LF] + rest;
    if line != [] {
      NotInRest(line, CR);
      FirstLineEnd(line[1..], rest);
      assert t[1..] == line[1..] + [CR, LF] + rest;
      assert t[0] == line[0];
    }
  }

  lemma {:induction false} LinesOfJoined(lines: seq<Text>)
    requires lines != [] && forall line | line in lines :: IsLine(line)
    ensures Lines(Joined(lines)) == lines
  {
    LinesAfter(lines);
    if |lines| == 1 {
      OneLine(lines[0]);
    } else {
      hide LineEnd;
      var rest := Joined(lines[1..]);
      var t := Joined(lines);
      FirstLineEnd(lines[0], rest);
      LinesOfJoined(lines[1..]);
      assert t[..|lines[0]|] == lines[0] && t[|lines[0]| + 2..] == rest;
      assert lines == [lines[0]] + lines[1..];
    }
  }

  lemma LinesAfter(lines: seq<Text>)
    requires lines != [] && forall line | line in lines :: IsLine(line)
    ensures IsLine(lines[0]) && forall line | line in lines[1..] :: IsLine(line)
  {
    hide IsLine;
    assert lines == [lines[0]] + lines[1..];
  }

  lemma {:induction false} EncodeBoth(t: Text, u: Text)
    ensures Encode(t + u) == Encode(t) + Encode(u)
  {
    if t == [] {
      hide EncodeChar;
      assert t + u == u;
    } else {
      hide Encode, EncodeChar;
      EncodeBoth(t[1..], u);
      assert (t + u)[1..] == t[1..] + u;
      EncodeMore(t + u);
      EncodeMore(t);
      FirstThenRest(EncodeChar(t[0]), Encode(t[1..]), Encode(u));
    }
  }

  lemma EncodeMore(t: Text)
    requires t != []
    ensures Encode(t) == EncodeChar(t[0]) + Encode(t[1..])
  {
    hide EncodeChar;
  }

  lemma FirstThenRest(a: Bytes, b: Bytes, c: Bytes)
    ensures a + (b + c) == a + b + c
  {
  }

  lemma {:induction false} NoReturnEncoded(t: Text)
    requires CR !in t
    ensures CR !in Encode(t) && (t != [] ==> Encode(t) != [])
  {
    if t != [] {
      NotInRest(t, CR);
      NoReturnEncoded(t[1..]);
      assert CR !in EncodeChar(t[0]);
    }
  }

  /** No blank line stands in the block, or begins in it. */
  lemma {:induction false} NoBlankWithin(lines: seq<Text>, rest: Bytes, i: nat)
    requires lines != [] && forall line | line in lines :: IsLine(line)
    requires i < |Encode(Joined(lines))|
    ensures !Stands(Encode(Joined(lines)) + BLANK + rest, BLANK, i)
    decreases |lines|
  {
    hide Encode, Stands;
    var b := Encode(Joined(lines)) + BLANK + rest;
    var first := Encode(lines[0]);
    LinesAfter(lines);
    NoReturnEncoded(lines[0]);
    assert i < |first| ==> first[i] in first;
    if |lines| > 1 {
      var more := Encode(Joined(lines[1..]));
      EncodedJoin(lines);
      NonEmptyBlock(lines[1..]);
      assert b == first + [CR, LF] + (more + BLANK + rest);
      if i >= |first| + 2 {
        NoBlankWithin(lines[1..], rest, i - |first| - 2);
        assert b[|first| + 2..] == more + BLANK + rest;
        StandsAfter(b, |first| + 2, i);
      } else {
        assert b[|first|] == CR && b[|first| + 1] == LF && b[|first| + 2] == more[0];
        assert i < |first| ==> b[i] == first[i];
        NotBlank(b, i);
      }
    } else {
      assert b[i] == first[i];
      NotBlank(b, i);
    }
  }

  lemma NotBlank(b: Bytes, i: nat)
    requires i < |b| && (b[i] != CR || (i + 2 < |b| && b[i + 2] != CR))
    ensures !Stands(b, BLANK, i)
  {
    if i + 4 <= |b| {
      assert b[i..i + 4][0] == b[i] && b[i..i + 4][2] == b[i + 2];
    }
  }

  lemma StandsAfter(b: Bytes, k: nat, i: nat)
    requires k <= i && k <= |b|
    ensures Stands(b, BLANK, i) <==> Stands(b[k..], BLANK, i - k)
  {
    if i + 4 <= |b| {
      assert b[k..][i - k..i - k + 4] == b[i..i + 4];
    }
  }

  lemma EncodedJoin(lines: seq<Text>)
    requires |lines| > 1
    ensures Encode(Joined(lines)) == Encode(lines[0]) + [CR, LF] + Encode(Joined(lines[1..]))
  {
    EncodeBoth(lines[0] + [CR, LF], Joined(lines[1..]));
    EncodeBoth(lines[0], [CR, LF]);
    LineEndEncoded();
  }

  lemma LineEndEncoded()
    ensures Encode([CR, LF]) == [CR, LF]
  {
    var t: Text := [CR, LF];
    assert t[1..] == [LF] && t[1..][1..] == [];
    assert Encode(t[1..]) == EncodeChar(LF) + Encode([]) == [LF];
  }

  lemma NonEmptyBlock(lines: seq<Text>)
    requires lines != [] && forall line | line in lines :: IsLine(line)
    ensures Encode(Joined(lines)) != [] && Encode(Joined(lines))[0] != CR
  {
    hide Encode;
    LinesAfter(lines);
    NoReturnEncoded(lines[0]);
    if |lines| > 1 {
      EncodedJoin(lines);
    }
    assert Encode(Joined(lines))[0] == Encode(lines[0])[0];
  }

  lemma BlockIsFound(lines: seq<Text>, rest: Bytes)
    requires lines != [] && forall line | line in lines :: IsLine(line)
    ensures var h := Encode(Joined(lines));
            FindIn(h + BLANK + rest, BLANK) == Some(|h|) && HeaderLength(h) ==
            (var read := ReadLines(lines);
             if read.Err? then Err(read.error) else if read.value.None? then Err(NoContentLength) else Ok(read.value.value))
  {
    hide Encode, FindIn, Joined, Lines, ReadLines, Decode;
    var h := Encode(Joined(lines));
    var b := h + BLANK + rest;
    FindIsFirst(b, BLANK);
    assert b[|h|..|h| + 4] == BLANK;
    assert Stands(b, BLANK, |h|);
    forall i: nat | i < |h| ensures !Stands(b, BLANK, i) {
      NoBlankWithin(lines, rest, i);
    }
    DecodeEncoded(Joined(lines));
    LinesOfJoined(lines);
  }

  /** A message under any sound block comes out whole: other fields before or after
      the length change nothing, and of several lengths the last counts. */
  lemma BlockIsTaken(lines: seq<Text>, k: nat, body: Text, rest: Bytes)
    requires (forall line | line in lines :: IsLine(line)) && Unbroken(lines)
    requires LastLength(lines, k, |Encode(body)|)
    ensures Take(Stream(Encode(Joined(lines)) + BLANK + (Encode(body) + rest), false)) == (Some(Message(body)), Stream(rest, false))
  {
    hide Encode, FindIn, HeaderLength, Decode, Joined, LastLength, Unbroken;
    var h, n, more := Encode(Joined(lines)), |Encode(body)|, Encode(body) + rest;
    var b := h + BLANK + more;
    LengthStandsInBlock(lines, k, n);
    BlockReads(lines);
    BlockIsFound(lines, more);
    DecodeEncoded(body);
    assert b[..|h|] == h;
    assert b[|h| + 4..|h| + 4 + n] == Encode(body);
    assert b[|h| + 4 + n..] == rest;
  }

  lemma LengthStandsInBlock(lines: seq<Text>, k: nat, n: nat)
    requires LastLength(lines, k, n)
    ensures lines != []
  {
  }

  /** And a block is refused, for good, exactly for its first line that breaks it, or
      for giving no length at all. */
  lemma BlockIsRefused(lines: seq<Text>, rest: Bytes, why: Why)
    requires lines != [] && forall line | line in lines :: IsLine(line)
    ensures Take(Stream(Encode(Joined(lines)) + BLANK + rest, false)) == Failed(why) <==>
            || (exists k :: FirstBreak(lines, k, why))
            || (why == NoContentLength && Unbroken(lines) && Lengthless(lines))
  {
    hide Encode, FindIn, HeaderLength, Decode, Joined;
    hide Breaks, GivesLength, ReadLines;
    var h := Encode(Joined(lines));
    var b := h + BLANK + rest;
    BlockReads(lines);
    BlockIsFound(lines, rest);
    assert b[..|h|] == h;
    if !Unbroken(lines) {
      var k, y := SomeFirstBreak(lines, |lines|);
    } else if !Lengthless(lines) {
      var k, n := SomeLastLength(lines, |lines|);
    }
  }

  lemma {:induction false} SomeFirstBreak(lines: seq<Text>, n: nat) returns (k: nat, why: Why)
    requires n <= |lines| && exists j, y: Why | 0 <= j < n :: Breaks(lines[j], y)
    ensures FirstBreak(lines, k, why)
  {
    hide Breaks;
    var last := n - 1;
    if j, y: Why :| 0 <= j < last && Breaks(lines[j], y) {
      k, why := SomeFirstBreak(lines, last);
    } else {
      var j, y: Why :| 0 <= j < n && Breaks(lines[j], y);
      k, why := last, y;
    }
  }

  lemma {:induction false} SomeLastLength(lines: seq<Text>, n: nat) returns (k: nat, length: nat)
    requires 0 < n <= |lines| && exists j, m: nat | 0 <= j < n :: GivesLength(lines[j], m)
    requires forall j, m: nat | n <= j < |lines| :: !GivesLength(lines[j], m)
    ensures LastLength(lines, k, length)
  {
    hide GivesLength;
    var last := n - 1;
    if m: nat :| GivesLength(lines[last], m) {
      k, length := last, m;
    } else {
      k, length := SomeLastLength(lines, last);
    }
  }
}
