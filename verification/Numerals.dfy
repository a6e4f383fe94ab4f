/** Instants as text. Decimal milliseconds stand for the ISO rendering: one text per instant, without separators. */
module Numerals {
  import opened Basics

  function Digit(d: nat): char
    requires d < 10
  {
    "0123456789"[d]
  }

  predicate IsDigit(c: char) { '0' <= c <= '9' }

  function Render(n: nat): (s: string)
    ensures s != [] && forall i :: 0 <= i < |s| ==> IsDigit(s[i])
  {
    if n < 10 then [Digit(n)] else Render(n / 10) + [Digit(n % 10)]
  }

  function Value(s: string): int
    requires forall i :: 0 <= i < |s| ==> IsDigit(s[i])
  {
    if s == [] then 0 else 10 * Value(s[..|s| - 1]) + (s[|s| - 1] as int - '0' as int)
  }

  lemma {:induction false} ValueOfRender(n: nat)
    ensures Value(Render(n)) == n
  {
    if n < 10 {
      assert Value([Digit(n)]) == n;
    } else {
      ValueOfRender(n / 10);
      var s := Render(n);
      assert s[..|s| - 1] == Render(n / 10);
    }
  }

  function Stamp(t: Instant): (s: string)
    ensures s != []
  {
    if t < 0 then "-" + Render(-t) else Render(t)
  }

  /** Reads a stamp; anything else is not an instant. */
  function ReadStamp(s: string): Option<Instant> {
    if s != [] && (forall i :: 0 <= i < |s| ==> IsDigit(s[i])) then Some(Value(s))
    else if |s| > 1 && s[0] == '-' && (forall i :: 1 <= i < |s| ==> IsDigit(s[i])) then Some(-Value(s[1..]))
    else None
  }

  lemma {:induction false} ReadWhatWasStamped(t: Instant)
    ensures ReadStamp(Stamp(t)) == Some(t)
    ensures forall i :: 0 <= i < |Stamp(t)| ==> Stamp(t)[i] == '-' || IsDigit(Stamp(t)[i])
  {
    ValueOfRender(if t < 0 then -t else t);
    if t < 0 {
      assert Stamp(t)[1..] == Render(-t);
      assert !IsDigit(Stamp(t)[0]);
    }
  }
}
