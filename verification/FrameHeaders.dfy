// The header block of a message: what `take_body` reads a length from.
module FrameHeaders {
  import opened Options
  import opened Texts
  import opened Utf8

  const MAX_CONTENT_LENGTH := 64 * 1024 * 1024
  // One past the largest `usize`.
  const USIZE_END := 0x1_0000_0000_0000_0000

  const COLON: Scalar := 58
  const CR: Byte := 13
  const LF: Byte := 10
  const PLUS: Scalar := 43

  /** Why a stream was abandoned. */
  datatype Why =
    | HeaderNotText
    | NoColon(line: Text)
    | TooLong(length: nat)
    | Unparseable(value: Text)
    | NoContentLength

  predicate IsContentLength(name: Text) {
    var wanted := Ascii("content-length");
    |name| == |wanted| && forall i :: 0 <= i < |name| ==> Lower(name[i]) == wanted[i]
  }

  function Lower(c: Scalar): int {
    if 65 <= c <= 90 then c + 32 else c
  }

  // `str::parse::<usize>`: a sign is allowed if it is plus.
  function ParseUsize(t: Text): Option<nat> {
    var digits := if |t| > 1 && t[0] == PLUS then t[1..] else t;
    if |digits| == 0 || Digits(digits).None? || Digits(digits).value >= USIZE_END then None else Digits(digits)
  }

  function ColonAt(t: Text): (i: nat)
    ensures i <= |t|
  {
    if |t| == 0 || t[0] == COLON then 0 else 1 + ColonAt(t[1..])
  }

  // The text up to the first line end, and how much that takes off.
  function LineEnd(t: Text): (i: nat)
    ensures i <= |t| && (i < |t| ==> i + 2 <= |t|)
  {
    if |t| == 0 || (|t| >= 2 && t[0] == CR && t[1] == LF) then 0
    else 1 + LineEnd(t[1..])
  }

  function Lines(t: Text): (ls: seq<Text>)
    ensures |ls| > 0
    decreases |t|
  {
    var i := LineEnd(t);
    if i == |t| then [t] else [t[..i]] + Lines(t[i + 2..])
  }

  // One header line, given the length known so far.
  function ReadLine(line: Text, length: Option<nat>): Result<Option<nat>, Why> {
    var i := ColonAt(line);
    if i == |line| then Err(NoColon(line))
    else if !IsContentLength(Trim(line[..i])) then Ok(length)
    else
      var value := Trim(line[i + 1..]);
      var n := ParseUsize(value);
      if n.None? then Err(Unparseable(value))
      else if n.value > MAX_CONTENT_LENGTH then Err(TooLong(n.value))
      else Ok(n)
  }

  function ReadLines(lines: seq<Text>): Result<Option<nat>, Why> {
    var n := |lines|;
    if n == 0 then Ok(None)
    else
      var before := ReadLines(lines[..n - 1]);
      if before.Err? then before else ReadLine(lines[n - 1], before.value)
  }

  // The length that a whole header block gives.
  function HeaderLength(header: Bytes): Result<nat, Why> {
    var text := Decode(header);
    if text.None? then Err(HeaderNotText)
    else
      var read := ReadLines(Lines(text.value));
      if read.Err? then Err(read.error)
      else if read.value.None? then Err(NoContentLength)
      else Ok(read.value.value)
  }

  lemma {:induction false} AsciiIsText(b: Bytes)
    requires forall i :: 0 <= i < |b| ==> b[i] < 0x80
    ensures Decode(b) == Some(b)
  {
    if |b| > 0 {
      AsciiIsText(b[1..]);
      assert [b[0]] + b[1..] == b;
    }
  }

  lemma {:induction false} OneLine(t: Text)
    requires CR !in t
    ensures LineEnd(t) == |t| && Lines(t) == [t]
  {
    if |t| > 0 { OneLine(t[1..]); }
  }

  lemma {:induction false} FirstColon(t: Text, i: nat)
    requires i < |t| && t[i] == COLON && COLON !in t[..i]
    ensures ColonAt(t) == i
  {
    if i > 0 {
      assert t[..i][0] == t[0];
      assert t[1..][..i - 1] == t[..i][1..];
      FirstColon(t[1..], i - 1);
    }
  }

  // What `encode` writes before the blank line.
  function Header(n: nat): (b: Bytes)
    ensures forall i :: 0 <= i < |b| ==> b[i] < 0x80 && b[i] != CR
  {
    Ascii("Content-Length: ") + Printed(n)
  }

  /** The length written is the length read, within the limit. */
  lemma HeaderReadsBack(n: nat)
    requires n < USIZE_END
    ensures HeaderLength(Header(n)) == if n <= MAX_CONTENT_LENGTH then Ok(n) else Err(TooLong(n))
  {
    hide Digits, Printed, Lines, ReadLine, TrimStart, TrimEnd;
    var h := Header(n);
    AsciiIsText(h);
    OneLine(h);
    HeaderLineReads(n);
    assert ReadLines([h][..0]) == Ok(None);
  }

  lemma HeaderLineReads(n: nat)
    requires n < USIZE_END
    ensures ReadLine(Header(n), None) == if n <= MAX_CONTENT_LENGTH then Ok(Some(n)) else Err(TooLong(n))
  {
    hide Digits, Printed, ColonAt;
    var h, name, digits := Header(n), Ascii("Content-Length"), Printed(n);
    PrintedIsDigits(n);
    assert h[..14] == name;
    FirstColon(h, 14);
    assert Trim(name) == name;
    assert h[15..] == [0x20] + digits;
    assert h[15..][1..] == digits;
    assert TrimStart(h[15..]) == digits;
    assert TrimEnd(digits) == digits;
  }
}
