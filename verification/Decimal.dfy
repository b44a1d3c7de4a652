/** Decimal integers as Python prints and reads them (ASCII digits). */
module Decimal {
  import opened Text

  function DigitOf(n: nat): char
    requires n < 10
  {
    '0' + n as char
  }

  /** `str(n)` */
  function Print(n: nat): string {
    if n < 10 then [DigitOf(n)] else Print(n / 10) + [DigitOf(n % 10)]
  }

  /** The value of a run of digits in which single underscores may stand between digits. */
  function ParseDigits(s: string): Option<nat> {
    if s == "" then None
    else
      var last, init := s[|s| - 1], s[..|s| - 1];
      if !IsDigit(last) then None
      else
        var d := last as int - '0' as int;
        if init == "" then Some(d)
        else
          var head := ParseDigits(if init[|init| - 1] == '_' then init[..|init| - 1] else init);
          if head.Some? then Some(head.value * 10 + d) else None
  }

  /** `int(s)`, with None for its ValueError. */
  function ParseInt(s: string): Option<int> {
    var t := Strip(s);
    if t != "" && t[0] == '-' then
      var n := ParseDigits(t[1..]);
      if n.Some? then
        var v: int := n.value;
        Some(-v)
      else None
    else
      var n := ParseDigits(if t != "" && t[0] == '+' then t[1..] else t);
      if n.Some? then Some(n.value) else None
  }

  lemma {:induction false} PrintIsDigits(n: nat)
    ensures Print(n) != "" && forall i :: 0 <= i < |Print(n)| ==> IsDigit(Print(n)[i])
  {
    if n >= 10 { PrintIsDigits(n / 10); }
  }

  lemma {:induction false} DigitsRoundTrip(n: nat)
    ensures ParseDigits(Print(n)) == Some(n)
  {
    if n >= 10 {
      DigitsRoundTrip(n / 10);
      PrintIsDigits(n / 10);
      assert Print(n)[..|Print(n)| - 1] == Print(n / 10);
    }
  }

  /** Reading undoes printing. */
  lemma IntRoundTrip(n: nat)
    ensures ParseInt(Print(n)) == Some(n)
  {
    PrintIsDigits(n);
    DigitsRoundTrip(n);
    assert Strip(Print(n)) == Print(n);
  }

  lemma NegativeRoundTrip(n: nat)
    ensures var v: int := n; ParseInt("-" + Print(n)) == Some(-v)
  {
    PrintIsDigits(n);
    DigitsRoundTrip(n);
    var t := "-" + Print(n);
    assert t[|t| - 1] == Print(n)[|Print(n)| - 1];
    assert Strip(t) == t && t[1..] == Print(n);
  }

  lemma PrintIsInjective(m: nat, n: nat)
    requires Print(m) == Print(n)
    ensures m == n
  {
    DigitsRoundTrip(m);
    DigitsRoundTrip(n);
  }
}
