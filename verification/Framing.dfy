// src/framing.rs: bodies out of a byte stream that arrives in pieces.
module Framing {
  import opened Options
  import opened Utf8
  import opened FrameHeaders

  const BLANK: Bytes := [CR, LF, CR, LF]

  // `find`: where the needle first stands.
  function FindIn(haystack: Bytes, needle: Bytes): Option<nat> {
    if |haystack| < |needle| then None
    else if haystack[..|needle|] == needle then Some(0)
    else if |haystack| == 0 then None
    else
      var i := FindIn(haystack[1..], needle);
      if i.None? then None else Some(i.value + 1)
  }

  /** What `take_body` may hand out. */
  datatype Taken = Message(body: Text) | BodyNotText | Abandoned(why: Why)

  /** The reassembler between calls. */
  datatype Stream = Stream(buf: Bytes, failed: bool)

  function Fed(s: Stream, bytes: Bytes): Stream {
    if s.failed then s else s.(buf := s.buf + bytes)
  }

  function Failed(why: Why): (Option<Taken>, Stream) {
    (Some(Abandoned(why)), Stream([], true))
  }

  function Take(s: Stream): (Option<Taken>, Stream) {
    if s.failed then (None, s)
    else
      var end := FindIn(s.buf, BLANK);
      if end.None? then (None, s)
      else
        FindIsFirst(s.buf, BLANK);
        var length := HeaderLength(s.buf[..end.value]);
        if length.Err? then Failed(length.error)
        else
          var start := end.value + 4;
          var stop := start + length.value;
          if |s.buf| < stop then (None, s)
          else
            var body := Decode(s.buf[start..stop]);
            (Some(if body.Some? then Message(body.value) else BodyNotText), s.(buf := s.buf[stop..]))
  }

  // Everything that taking until nothing more comes gives.
  function Drain(s: Stream): seq<Taken>
    decreases |s.buf|
  {
    var (out, rest) := Take(s);
    if out.None? then []
    else
      TakeShrinks(s);
      [out.value] + Drain(rest)
  }

  function EncodeFrame(body: Text): Bytes {
    Header(|Encode(body)|) + BLANK + Encode(body)
  }

  function EncodeAll(bodies: seq<Text>): Bytes {
    if |bodies| == 0 then [] else EncodeFrame(bodies[0]) + EncodeAll(bodies[1..])
  }

  // One use of a stream: bytes arrive, or its owner asks for a body.
  datatype Use = Feed(bytes: Bytes) | TakeBody

  function Bodies(uses: seq<Use>, s: Stream): seq<Taken> {
    if |uses| == 0 then []
    else
      match uses[0]
      case Feed(bytes) => Bodies(uses[1..], Fed(s, bytes))
      case TakeBody =>
        var (out, rest) := Take(s);
        (if out.None? then [] else [out.value]) + Bodies(uses[1..], rest)
  }

  function After(uses: seq<Use>, s: Stream): Stream {
    if |uses| == 0 then s
    else After(uses[1..], if uses[0].Feed? then Fed(s, uses[0].bytes) else Take(s).1)
  }

  function Arrived(uses: seq<Use>): Bytes {
    if |uses| == 0 then [] else (if uses[0].Feed? then uses[0].bytes else []) + Arrived(uses[1..])
  }

  ghost predicate Stands(h: Bytes, n: Bytes, j: nat) {
    j + |n| <= |h| && h[j..j + |n|] == n
  }

  lemma StandsShifts(h: Bytes, n: Bytes, j: nat)
    requires |h| > 0
    ensures Stands(h[1..], n, j) <==> Stands(h, n, j + 1)
  {
    if j + 1 + |n| <= |h| { assert h[1..][j..j + |n|] == h[j + 1..j + 1 + |n|]; }
  }

  lemma StandsFirst(h: Bytes, n: Bytes)
    requires |n| <= |h|
    ensures Stands(h, n, 0) <==> h[..|n|] == n
  {
  }

  lemma StandsNowhere(h: Bytes, n: Bytes)
    requires |h| < |n|
    ensures forall j :: !Stands(h, n, j)
  {
  }

  // `find` finds a place, and no earlier one, or says there is none.
  lemma {:induction false} FindIsFirst(h: Bytes, n: Bytes)
    requires |n| > 0
    ensures var i := FindIn(h, n);
            && (i.Some? ==> Stands(h, n, i.value))
            && forall j :: Stands(h, n, j) ==> i.Some? && i.value <= j
  {
    hide Stands;
    if |n| <= |h| {
      StandsFirst(h, n);
      if h[..|n|] != n {
        FindIsFirst(h[1..], n);
        var i := FindIn(h[1..], n);
        if i.Some? { StandsShifts(h, n, i.value); }
        forall j | Stands(h, n, j) ensures i.Some? && i.value + 1 <= j {
          StandsShifts(h, n, j - 1);
        }
      }
    } else {
      StandsNowhere(h, n);
    }
  }

  lemma {:induction false} FindStays(h: Bytes, n: Bytes, more: Bytes)
    requires FindIn(h, n).Some?
    ensures FindIn(h + more, n) == FindIn(h, n)
  {
    assert (h + more)[..|n|] == h[..|n|];
    if h[..|n|] != n {
      FindStays(h[1..], n, more);
      assert (h + more)[1..] == h[1..] + more;
    }
  }

  // A body taken takes something off; an abandoned stream had bytes to clear.
  lemma TakeShrinks(s: Stream)
    requires Take(s).0.Some?
    ensures |Take(s).1.buf| < |s.buf|
  {
    hide FindIn, HeaderLength, Decode;
    FindIsFirst(s.buf, BLANK);
  }

  /** What can be taken now is what could be taken later: bytes still to come
    * change neither the outcome nor what it leaves, but for following it. */
  lemma TakeStays(s: Stream, more: Bytes)
    requires Take(s).0.Some?
    ensures Take(Fed(s, more)) == (Take(s).0, Fed(Take(s).1, more))
  {
    hide FindIn, HeaderLength, Decode;
    FindIsFirst(s.buf, BLANK);
    FindStays(s.buf, BLANK, more);
    var b := s.buf + more;
    var end := FindIn(s.buf, BLANK).value;
    assert b[..end] == s.buf[..end];
    var length := HeaderLength(s.buf[..end]);
    if length.Ok? {
      var start, stop := end + 4, end + 4 + length.value;
      assert b[start..stop] == s.buf[start..stop];
      assert b[stop..] == s.buf[stop..] + more;
    }
  }

  lemma FedTwice(s: Stream, a: Bytes, b: Bytes)
    ensures Fed(Fed(s, a), b) == Fed(s, a + b) && Fed(s, []) == s
  {
    assert s.buf + a + b == s.buf + (a + b);
  }

  // Nothing more comes out of a stream that was abandoned.
  lemma {:induction false} FailedIsTerminal(uses: seq<Use>, s: Stream)
    requires s.failed
    ensures Bodies(uses, s) == [] && After(uses, s) == s && Drain(s) == []
  {
    if |uses| > 0 { FailedIsTerminal(uses[1..], s); }
  }

  lemma DrainOfTaken(s: Stream, more: Bytes)
    requires Take(s).0.Some?
    ensures Drain(Fed(s, more)) == [Take(s).0.value] + Drain(Fed(Take(s).1, more))
  {
    hide Take;
    TakeStays(s, more);
    TakeShrinks(Fed(s, more));
  }

  /** However a stream is cut into feeds, and wherever between them bodies are
    * asked for, what comes out is what comes out of the whole stream. */
  lemma {:induction false} PiecesDrainAlike(uses: seq<Use>, s: Stream)
    ensures Bodies(uses, s) + Drain(After(uses, s)) == Drain(Fed(s, Arrived(uses)))
  {
    hide Take, Drain, Fed, Bodies, After, Arrived;
    FedTwice(s, [], []);
    if |uses| == 0 {
      NoUses(s);
    } else {
      var rest := uses[1..];
      FirstUse(uses, s);
      match uses[0]
      case Feed(bytes) =>
        PiecesDrainAlike(rest, Fed(s, bytes));
        FedTwice(s, bytes, Arrived(rest));
      case TakeBody =>
        var (out, t) := Take(s);
        PiecesDrainAlike(rest, t);
        if out.Some? { DrainOfTaken(s, Arrived(rest)); }
    }
  }

  lemma NoUses(s: Stream)
    ensures Bodies([], s) == [] && After([], s) == s && Arrived([]) == []
  {
  }

  lemma FirstUse(uses: seq<Use>, s: Stream)
    requires |uses| > 0
    ensures var rest := uses[1..];
            match uses[0]
            case Feed(bytes) =>
              && Bodies(uses, s) == Bodies(rest, Fed(s, bytes)) && After(uses, s) == After(rest, Fed(s, bytes))
              && Arrived(uses) == bytes + Arrived(rest)
            case TakeBody =>
              && After(uses, s) == After(rest, Take(s).1) && Arrived(uses) == Arrived(rest)
              && (Take(s).0.Some? ==> Bodies(uses, s) == [Take(s).0.value] + Bodies(rest, Take(s).1))
              && (Take(s).0.None? ==> Take(s).1 == s && Bodies(uses, s) == Bodies(rest, s))
  {
    hide FindIn, HeaderLength, Decode;
  }

  // The blank line after a header is the first there is.
  lemma HeaderEndIsFound(n: nat, rest: Bytes)
    ensures FindIn(Header(n) + BLANK + rest, BLANK) == Some(|Header(n)|)
  {
    hide FindIn, Header;
    var h := Header(n);
    var b := h + BLANK + rest;
    FindIsFirst(b, BLANK);
    assert b[|h|..|h| + 4] == BLANK;
    assert Stands(b, BLANK, |h|);
    forall i: nat | i < |h| ensures !Stands(b, BLANK, i) {
      assert b[i..i + 4][0] == h[i];
    }
  }

  /** One frame, whatever its body holds and whatever follows: the body within
    * the limit, and a refusal of its length beyond it. */
  lemma FrameReadsBack(body: Text, rest: Bytes)
    requires |Encode(body)| < USIZE_END
    ensures var n := |Encode(body)|;
            Take(Stream(EncodeFrame(body) + rest, false)) ==
            if n <= MAX_CONTENT_LENGTH then (Some(Message(body)), Stream(rest, false)) else Failed(TooLong(n))
  {
    hide FindIn, Header, HeaderLength, Decode, Encode;
    var n := |Encode(body)|;
    var h, b := Header(n), EncodeFrame(body) + rest;
    assert b == h + BLANK + (Encode(body) + rest);
    HeaderEndIsFound(n, Encode(body) + rest);
    HeaderReadsBack(n);
    assert b[..|h|] == h;
    if n <= MAX_CONTENT_LENGTH {
      assert b[|h| + 4..|h| + 4 + n] == Encode(body);
      assert b[|h| + 4 + n..] == rest;
      DecodeEncoded(body);
    }
  }

  ghost predicate WithinLimit(bodies: seq<Text>) {
    forall i :: 0 <= i < |bodies| ==> |Encode(bodies[i])| <= MAX_CONTENT_LENGTH
  }

  function Messages(bodies: seq<Text>): seq<Taken> {
    seq(|bodies|, i requires 0 <= i < |bodies| => Message(bodies[i]))
  }

  lemma NothingToTake()
    ensures Take(Stream([], false)).0.None?
  {
  }

  /** What was encoded comes out, even when bodies look like headers. */
  lemma {:induction false} EncodedComesOut(bodies: seq<Text>)
    requires WithinLimit(bodies)
    ensures Drain(Stream(EncodeAll(bodies), false)) == Messages(bodies)
  {
    hide FindIn, EncodeFrame, Encode, Take;
    var s := Stream(EncodeAll(bodies), false);
    if |bodies| == 0 {
      NothingToTake();
    } else {
      EncodedComesOut(bodies[1..]);
      FrameReadsBack(bodies[0], EncodeAll(bodies[1..]));
      TakeShrinks(s);
      assert Messages(bodies) == [Message(bodies[0])] + Messages(bodies[1..]);
    }
  }

  /** The two together: any pieces, any moments of asking. */
  lemma EncodedComesOutInPieces(bodies: seq<Text>, uses: seq<Use>)
    requires WithinLimit(bodies) && Arrived(uses) == EncodeAll(bodies)
    ensures var s := Stream([], false);
            Bodies(uses, s) + Drain(After(uses, s)) == Messages(bodies)
  {
    hide Drain, Take, Bodies, After, Arrived;
    PiecesDrainAlike(uses, Stream([], false));
    EncodedComesOut(bodies);
    assert [] + EncodeAll(bodies) == EncodeAll(bodies);
  }

  class Frames {
    var buf: Bytes
    var failed: bool

    constructor ()
      ensures Now() == Stream([], false)
    {
      buf, failed := [], false;
    }

    function Now(): Stream
      reads this
    {
      Stream(buf, failed)
    }

    method Feed(bytes: Bytes)
      modifies this
      ensures Now() == Fed(old(Now()), bytes)
    {
      if !failed {
        buf := buf + bytes;
      }
    }

    method Fail(why: Why) returns (out: Option<Taken>)
      modifies this
      ensures (out, Now()) == Failed(why)
    {
      failed := true;
      buf := [];
      out := Some(Abandoned(why));
    }

    method TakeBody() returns (out: Option<Taken>)
      modifies this
      ensures (out, Now()) == Take(old(Now()))
      ensures out.Some? && failed ==> buf == []
    {
      hide FindIn, Decode, Lines, ReadLine;
      if failed {
        return None;
      }
      var end := Find(buf, BLANK);
      if end.None? {
        return None;
      }
      var header := Decode(buf[..end.value]);
      if header.None? {
        out := Fail(HeaderNotText);
        return;
      }
      var length: Option<nat> := None;
      var lines, i := Lines(header.value), 0;
      while i < |lines|
        invariant 0 <= i <= |lines|
        invariant ReadLines(lines[..i]) == Ok(length)
        invariant Now() == old(Now())
      {
        var read := ReadLine(lines[i], length);
        assert lines[..i + 1][..i] == lines[..i];
        if read.Err? {
          ErrorStays(lines, i + 1);
          out := Fail(read.error);
          return;
        }
        length := read.value;
        i := i + 1;
      }
      assert lines[..i] == lines;
      if length.None? {
        out := Fail(NoContentLength);
        return;
      }
      var start := end.value + 4;
      if |buf| < start + length.value {
        return None;
      }
      var body := Decode(buf[start..start + length.value]);
      buf := buf[start + length.value..];
      out := Some(if body.Some? then Message(body.value) else BodyNotText);
    }
  }

  method Find(haystack: Bytes, needle: Bytes) returns (at: Option<nat>)
    requires |needle| > 0
    ensures at == FindIn(haystack, needle)
    ensures at.Some? ==> at.value + |needle| <= |haystack|
  {
    hide FindIn;
    FindIsFirst(haystack, needle);
    var i := 0;
    while i + |needle| <= |haystack|
      invariant forall j: nat :: j < i ==> !Stands(haystack, needle, j)
    {
      if haystack[i..i + |needle|] == needle {
        assert Stands(haystack, needle, i);
        return Some(i);
      }
      i := i + 1;
    }
    return None;
  }

  // A header refused at one line is refused, whatever the lines after it.
  lemma {:induction false} ErrorStays(lines: seq<Text>, k: nat)
    requires k <= |lines| && ReadLines(lines[..k]).Err?
    ensures ReadLines(lines) == ReadLines(lines[..k])
    decreases |lines|
  {
    hide ReadLine;
    var n := |lines| - 1;
    if k <= n {
      assert lines[..n][..k] == lines[..k];
      ErrorStays(lines[..n], k);
    } else {
      assert lines[..k] == lines;
    }
  }
}
