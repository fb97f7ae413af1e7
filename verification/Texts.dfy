/** The standard library's text functions, over Unicode scalar values. */
module Texts {
  import opened Options
  import opened Utf8

  function Ascii(s: string): Text {
    seq(|s|, i requires 0 <= i < |s| => s[i] as int)
  }

  // `char::is_whitespace`: the White_Space property.
  predicate White(c: Scalar) {
    || 9 <= c <= 13 || c == 0x20 || c == 0x85 || c == 0xA0 || c == 0x1680 || 0x2000 <= c <= 0x200A
    || c == 0x2028 || c == 0x2029 || c == 0x202F || c == 0x205F || c == 0x3000
  }

  function TrimStart(t: Text): Text {
    if |t| > 0 && White(t[0]) then TrimStart(t[1..]) else t
  }

  function TrimEnd(t: Text): Text {
    if |t| > 0 && White(t[|t| - 1]) then TrimEnd(t[..|t| - 1]) else t
  }

  function Trim(t: Text): Text {
    TrimEnd(TrimStart(t))
  }

  lemma {:induction false} TrimStartIs(before: Text, t: Text)
    requires (forall c | c in before :: White(c)) && (t == [] || !White(t[0]))
    ensures TrimStart(before + t) == t
  {
    if before != [] {
      assert before == [before[0]] + before[1..];
      TrimStartIs(before[1..], t);
      assert (before + t)[1..] == before[1..] + t;
    } else {
      assert before + t == t;
    }
  }

  lemma TrimEndLast(t: Text, c: Scalar)
    ensures TrimEnd(t + [c]) == if White(c) then TrimEnd(t) else t + [c]
  {
    assert (t + [c])[..|t|] == t;
  }

  lemma NothingToTrim(t: Text)
    requires t == [] || !White(t[|t| - 1])
    ensures TrimEnd(t) == t
  {
  }

  lemma {:induction false} TrimEndIs(t: Text, after: Text)
    requires (forall c | c in after :: White(c)) && (t == [] || !White(t[|t| - 1]))
    ensures TrimEnd(t + after) == t
    decreases |after|
  {
    hide TrimEnd, White;
    if after == [] {
      NothingToTrim(t);
      assert t + after == t;
    } else {
      var n := |after| - 1;
      assert after == after[..n] + [after[n]];
      TrimEndIs(t, after[..n]);
      assert t + after == t + after[..n] + [after[n]];
      TrimEndLast(t + after[..n], after[n]);
    }
  }

  /** Trimming takes the white space off both ends and nothing else. */
  lemma TrimIs(before: Text, t: Text, after: Text)
    requires (forall c | c in before :: White(c)) && forall c | c in after :: White(c)
    requires t == [] || (!White(t[0]) && !White(t[|t| - 1]))
    ensures Trim(before + t + after) == t
  {
    hide TrimStart, TrimEnd;
    if t == [] {
      assert before + t + after == (before + after) + [];
      TrimStartIs(before + after, []);
      TrimEndIs([], []);
      var none: Text := [];
      assert none + none == none;
    } else {
      TrimEndIs(t, after);
      TrimStartIs(before, t + after);
      assert before + t + after == before + (t + after);
    }
  }

  predicate IsDigit(c: Scalar) {
    48 <= c <= 57
  }

  function Digits(t: Text): Option<nat> {
    var n := |t|;
    if n == 0 then Some(0)
    else if Digits(t[..n - 1]).None? || !IsDigit(t[n - 1]) then None
    else Some(Digits(t[..n - 1]).value * 10 + (t[n - 1] - 48))
  }

  // `format!("{}", n)`.
  function Printed(n: nat): (t: Text)
    ensures |t| > 0 && forall i :: 0 <= i < |t| ==> IsDigit(t[i])
  {
    (if n < 10 then [] else Printed(n / 10)) + [48 + n % 10]
  }

  // Printing a number and reading it back.
  lemma {:induction false} PrintedIsDigits(n: nat)
    ensures Digits(Printed(n)) == Some(n)
  {
    hide Digits;
    if n < 10 {
      NoDigits();
      DigitsAppend([], n);
      assert Printed(n) == [] + [48 + n];
    } else {
      PrintedIsDigits(n / 10);
      DigitsAppend(Printed(n / 10), n % 10);
    }
  }

  lemma NoDigits()
    ensures Digits([]) == Some(0)
  {
  }

  lemma DigitsAppend(t: Text, d: nat)
    requires d < 10 && Digits(t).Some?
    ensures Digits(t + [48 + d]) == Some(Digits(t).value * 10 + d)
  {
    assert (t + [48 + d])[..|t|] == t;
  }

  const DECIMAL: seq<char> := "0123456789"

  /** The digits are ten, for 0 to 9. */
  lemma DigitsAreTen(c: Scalar, i: nat)
    requires i < 10
    ensures Printed(i) == [DECIMAL[i] as int] && Digits([DECIMAL[i] as int]) == Some(i)
    ensures IsDigit(c) <==> exists k :: 0 <= k < 10 && DECIMAL[k] as int == c
  {
    PrintedIsDigits(i);
    if IsDigit(c) {
      assert DECIMAL[c - 48] as int == c;
    }
  }

  /** No number but 0 is printed with a zero in front. */
  lemma {:induction false} NoLeadingZero(n: nat)
    ensures Printed(n)[0] == 48 <==> n == 0
    ensures n == 0 ==> |Printed(n)| == 1
  {
    if n >= 10 {
      NoLeadingZero(n / 10);
    }
  }

  /** A text is read as a number exactly when it is digits throughout. */
  lemma {:induction false} DigitsThroughout(t: Text)
    ensures Digits(t).Some? <==> forall k :: 0 <= k < |t| ==> IsDigit(t[k])
    decreases |t|
  {
    var n := |t|;
    if n > 0 {
      DigitsThroughout(t[..n - 1]);
      assert t == t[..n - 1] + [t[n - 1]];
    }
  }
}
