/** Durations as the rewriter computes and prints them: 64-bit nanosecond counts. */
module Duration {
  import opened Text

  const SECOND := 1_000_000_000
  const TWO_63 := 0x8000_0000_0000_0000

  /** Two's complement wrap-around of 64-bit arithmetic. */
  function Wrap64(x: int): (w: int)
    ensures -TWO_63 <= w < TWO_63
    ensures -TWO_63 <= x < TWO_63 ==> w == x
    ensures (w - x) % (2 * TWO_63) == 0
  {
    (x + TWO_63) % (2 * TWO_63) - TWO_63
  }

  predicate IsDigit(c: char) {
    '0' <= c <= '9'
  }

  function DigitsValue(s: string): nat
    requires forall i :: 0 <= i < |s| ==> IsDigit(s[i])
  {
    if s == [] then 0
    else assert IsDigit(s[|s| - 1]); 10 * DigitsValue(s[..|s| - 1]) + (s[|s| - 1] as int - '0' as int)
  }

  function Unsigned(s: string): string {
    if s != "" && (s[0] == '+' || s[0] == '-') then s[1..] else s
  }

  predicate AllDigits(s: string) {
    forall i :: 0 <= i < |s| ==> IsDigit(s[i])
  }

  /** `strconv.ParseInt(s, 10, 64)`; `None` is the error. */
  function ParseInt64(s: string): Option<int> {
    if Unsigned(s) == "" || !AllDigits(Unsigned(s)) then None
    else
      var v: int := DigitsValue(Unsigned(s));
      if s[0] == '-' then (if v <= TWO_63 then Some(-v) else None)
      else if v < TWO_63 then Some(v) else None
  }

  /** No character that a query scanner reacts to. */
  predicate Inert(s: string) {
    forall i :: 0 <= i < |s| ==> InertChar(s[i])
  }

  predicate InertChar(c: char) {
    c != '(' && c != ')' && c != '[' && c != ']' && c != '"'
  }

  function Digit(n: nat): (c: char)
    ensures IsDigit(c) && c as int - '0' as int == n % 10
  {
    ('0' as int + n % 10) as char
  }

  function Decimal(n: nat): (s: string)
    ensures Inert(s)
  {
    (if n < 10 then "" else Decimal(n / 10)) + [Digit(n)]
  }

  /** The last `prec` decimal digits of `v` as a fraction without trailing zeros. */
  function Fraction(v: nat, prec: nat, shown: bool): (s: string)
    ensures Inert(s)
    decreases prec
  {
    if prec == 0 then (if shown then "." else "")
    else
      var shown' := shown || v % 10 != 0;
      Fraction(v / 10, prec - 1, shown') + (if shown' then [Digit(v)] else "")
  }

  function HoursAndMinutes(minutes: nat): (s: string)
    ensures Inert(s)
  {
    if minutes == 0 then ""
    else if minutes < 60 then Decimal(minutes) + "m"
    else Decimal(minutes / 60) + "h" + Decimal(minutes % 60) + "m"
  }

  function WithFraction(whole: string, v: nat, prec: nat, unit: string): (s: string)
    requires Inert(whole) && Inert(unit)
    ensures Inert(s)
  {
    whole + Fraction(v, prec, false) + unit
  }

  function Magnitude(u: nat): (s: string)
    ensures Inert(s)
  {
    if u == 0 then "0s"
    else if u < 1_000 then Decimal(u) + "ns"
    else if u < 1_000_000 then WithFraction(Decimal(u / 1_000), u, 3, "\U{00B5}s")
    else if u < SECOND then WithFraction(Decimal(u / 1_000_000), u, 6, "ms")
    else WithFraction(HoursAndMinutes(u / SECOND / 60) + Decimal(u / SECOND % 60), u, 9, "s")
  }

  /** `Duration.String`, for example `1m30s`; splicing it into a query never opens or closes anything. */
  function Show(d: int): (s: string)
    ensures Inert(s)
  {
    if d < 0 then "-" + Magnitude(-d) else Magnitude(d)
  }

  function Pow10(n: nat): (p: nat)
    ensures p > 0
  {
    if n == 0 then 1 else 10 * Pow10(n - 1)
  }

  lemma {:induction false} NoFraction(n: nat, prec: nat)
    ensures Fraction(n * Pow10(prec), prec, false) == ""
    decreases prec
  {
    if prec == 0 {
    } else {
      assert n * Pow10(prec) == 10 * (n * Pow10(prec - 1));
      NoFraction(n, prec - 1);
    }
  }

  /** How whole seconds print. */
  lemma WholeSeconds(n: nat)
    requires n > 0
    ensures Show(n * SECOND) == HoursAndMinutes(n / 60) + Decimal(n % 60) + "s"
  {
    assert Pow10(3) == 1_000 && Pow10(6) == 1_000 * Pow10(3) && Pow10(9) == 1_000 * Pow10(6);
    NoFraction(n, 9);
    assert n * SECOND / SECOND == n;
    var whole := HoursAndMinutes(n / 60) + Decimal(n % 60);
    assert whole + "" == whole;
  }
}
