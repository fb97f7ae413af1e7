// Ranges of numbers between braces.
module BraceNumbers {
  import opened Ints64
  import opened Options
  import opened Texts
  import opened Utf8

  const PLUS: Scalar := 43
  const MINUS: Scalar := 45
  const DOT: Scalar := 46
  const MOST := 1000

  // `str::parse::<i64>`.
  function ParseI64(t: Text): Option<I64> {
    var signed := |t| > 1 && (t[0] == PLUS || t[0] == MINUS);
    var digits := if signed then t[1..] else t;
    if |digits| == 0 || Digits(digits).None? then None
    else
      var n := Digits(digits).value;
      var value: int := if signed && t[0] == MINUS then -(n as int) else n;
      if MIN <= value <= MAX then Some(value) else None
  }

  // `to_string` of an integer.
  function PrintedInt(n: int): Text {
    if n < 0 then [MINUS] + Printed(-n) else Printed(n)
  }

  // Where the first `..` stands.
  function DotsAt(t: Text): (i: nat)
    ensures i <= |t| && (i < |t| ==> i + 2 <= |t|)
  {
    if |t| < 2 then |t|
    else if t[0] == DOT && t[1] == DOT then 0
    else 1 + DotsAt(t[1..])
  }

  // Both ends and what is between, in either direction.
  function Numbers(from: int, to: int): seq<Text> {
    if from <= to then seq(to - from + 1, i requires 0 <= i => PrintedInt(from + i))
    else seq(from - to + 1, i requires 0 <= i => PrintedInt(from - i))
  }

  // `numeric_range` where it does not panic: its subtraction and `abs` wrap.
  function NumericRange(body: Text): Option<seq<Text>> {
    var i := DotsAt(body);
    if i == |body| then None
    else
      var from, to := ParseI64(Trim(body[..i])), ParseI64(Trim(body[i + 2..]));
      if from.None? || to.None? || !InBounds(from.value, to.value) then None
      else Some(Numbers(from.value, to.value))
  }

  predicate InBounds(from: I64, to: I64) {
    var d: int := Wrap(to - from);
    Wrap(if d < 0 then -d else d) <= MOST
  }

  // Where arithmetic is checked, the subtraction or the `abs` may not fit.
  predicate BoundPanics(from: I64, to: I64) {
    CHECKED && !(MIN < to - from <= MAX)
  }

  // So a body may be no range, a range, or the end of the program.
  predicate RangePanics(body: Text) {
    var i := DotsAt(body);
    && i < |body|
    && var from, to := ParseI64(Trim(body[..i])), ParseI64(Trim(body[i + 2..]));
       from.Some? && to.Some? && BoundPanics(from.value, to.value)
  }

  /** A build that checks arithmetic panics exactly on ends half of all integers or
      more apart, and otherwise its bound is on the count. */
  lemma CheckedBoundIsOnCount(from: I64, to: I64)
    requires CHECKED
    ensures var apart := if from <= to then to - from else from - to;
            && (BoundPanics(from, to) <==> apart >= SPAN / 2)
            && (!BoundPanics(from, to) ==> (InBounds(from, to) <==> |Numbers(from, to)| <= MOST + 1))
  {
    BoundIsOnCount(from, to);
  }

  /** The bound is on the count except for ends half of all integers apart, or
      all but a thousand of them: there the difference wraps to within it. */
  lemma BoundIsOnCount(from: I64, to: I64)
    ensures var apart := if from <= to then to - from else from - to;
            && |Numbers(from, to)| == apart + 1
            && ((InBounds(from, to) <==> |Numbers(from, to)| <= MOST + 1) <==>
                  !(apart == SPAN / 2 || apart >= SPAN - MOST))
  {
    var apart := if from <= to then to - from else from - to;
    if apart < SPAN / 2 {
      assert Wrap(to - from) == to - from;
    } else if from <= to {
      assert Wrap(to - from) == to - from - SPAN;
    } else if apart > SPAN / 2 {
      assert Wrap(to - from) == to - from + SPAN;
    }
  }

  /** So a range of more than a thousand numbers can be accepted. */
  lemma BoundCanBeEscaped()
    ensures InBounds(MIN, MAX) && |Numbers(MIN, MAX)| == SPAN
  {
    BoundIsOnCount(MIN, MAX);
  }

  lemma {:induction false} DotsAfter(t: Text, i: nat)
    requires i + 2 <= |t| && t[i] == DOT && t[i + 1] == DOT && DOT !in t[..i]
    ensures DotsAt(t) == i
  {
    if i > 0 {
      assert t[..i][0] == t[0];
      assert t[1..][..i - 1] == t[..i][1..];
      DotsAfter(t[1..], i - 1);
    }
  }

  // An integer printed has no white space or dot, and reads back.
  lemma PrintedIntReadsBack(n: I64)
    ensures ParseI64(Trim(PrintedInt(n))) == Some(n)
    ensures forall i :: 0 <= i < |PrintedInt(n)| ==> IsDigit(PrintedInt(n)[i]) || PrintedInt(n)[i] == MINUS
  {
    hide Digits, Printed;
    var t := PrintedInt(n);
    var m: int := n;
    PrintedIsDigits(if m < 0 then -m else m);
    assert TrimStart(t) == t && TrimEnd(t) == t;
    if n < 0 { assert t[1..] == Printed(-m); }
  }

  /** The numbers of a range are its ends and all between, one apart, in order. */
  lemma NumbersAreBetween(from: I64, to: I64, i: nat)
    requires i < |Numbers(from, to)|
    ensures var n := if from <= to then from + i else from - i;
            && (from <= n <= to || to <= n <= from) && ParseI64(Trim(Numbers(from, to)[i])) == Some(n)
    ensures Numbers(from, to)[0] == PrintedInt(from) && Numbers(from, to)[|Numbers(from, to)| - 1] == PrintedInt(to)
  {
    hide PrintedInt, ParseI64, Trim;
    PrintedIntReadsBack(if from <= to then from + i else from - i);
  }

  /** An end may carry a sign, and white space around it counts for nothing. */
  lemma SignedReads(n: nat, before: Text, after: Text)
    requires (forall c | c in before :: White(c)) && forall c | c in after :: White(c)
    ensures var digits := Printed(n);
            && (n <= MAX ==> ParseI64(Trim(before + digits + after)) == Some(n))
            && (n <= MAX ==> ParseI64(Trim(before + ([PLUS] + digits) + after)) == Some(n))
            && (-(n as int) >= MIN ==> ParseI64(Trim(before + ([MINUS] + digits) + after)) == Some(-(n as int)))
  {
    hide Digits, Printed, Trim;
    var digits := Printed(n);
    PrintedIsDigits(n);
    TrimIs(before, digits, after);
    TrimIs(before, [PLUS] + digits, after);
    TrimIs(before, [MINUS] + digits, after);
    assert ([PLUS] + digits)[1..] == digits && ([MINUS] + digits)[1..] == digits;
  }

  /** Nothing else reads: digits, a sign in front at most, and a value that fits. */
  lemma OnlyNumbersRead(t: Text)
    ensures ParseI64(t).Some? ==>
              && t != [] && IsDigit(t[|t| - 1])
              && (forall k :: 0 < k < |t| ==> IsDigit(t[k]))
              && (IsDigit(t[0]) || t[0] == PLUS || t[0] == MINUS)
    ensures t != [] && (forall k :: 0 <= k < |t| ==> IsDigit(t[k])) ==>
              Digits(t).Some? && ParseI64(t) == if Digits(t).value <= MAX then Some(Digits(t).value) else None
  {
    DigitsThroughout(t);
    if t != [] {
      DigitsThroughout(t[1..]);
      assert forall k :: 0 < k < |t| ==> t[k] == t[1..][k - 1];
    }
  }

  /** A sign for the negative alone, and no needless zeros. */
  lemma PrintedPlainly(n: int)
    ensures PrintedInt(n)[0] == MINUS <==> n < 0
    ensures PrintedInt(n)[0] == 48 <==> n == 0
    ensures n == 0 ==> |PrintedInt(n)| == 1
    ensures n < 0 ==> PrintedInt(n)[1] != 48
  {
    NoLeadingZero(if n < 0 then -n else n);
  }

  // What stands for a range in a pattern.
  function PrintedRange(from: int, to: int): Text {
    PrintedInt(from) + [DOT, DOT] + PrintedInt(to)
  }

  lemma RangeReadsBack(from: I64, to: I64)
    ensures NumericRange(PrintedRange(from, to)) == if InBounds(from, to) then Some(Numbers(from, to)) else None
    ensures RangePanics(PrintedRange(from, to)) <==> BoundPanics(from, to)
  {
    hide PrintedInt, ParseI64, Numbers, InBounds, BoundPanics, Trim;
    var a, b, t := PrintedInt(from), PrintedInt(to), PrintedRange(from, to);
    PrintedIntReadsBack(from);
    PrintedIntReadsBack(to);
    assert t[..|a|] == a && t[|a| + 2..] == b;
    DotsAfter(t, |a|);
  }
}
