/** Reading a duration: a sign, then decimal numbers with units, added up. What the printer writes means the
    duration it was given (internal/common/prometheus.go:637-659). */
module DurationReader {
  import opened Text
  import opened Duration

  // ---------- the reader ----------

  function UnitOf(s: string): Option<nat> {
    match s
    case "ns" => Some(1)
    case "us" => Some(1_000)
    case "\U{00B5}s" => Some(1_000)
    case "\U{03BC}s" => Some(1_000)
    case "ms" => Some(1_000_000)
    case "s" => Some(1_000_000_000)
    case "m" => Some(60_000_000_000)
    case "h" => Some(3_600_000_000_000)
    case _ => None
  }

  /** The length of the longest beginning that is all digits. */
  function DigitRun(s: string): (n: nat)
    ensures n <= |s| && (forall i :: 0 <= i < n ==> IsDigit(s[i])) && (n < |s| ==> !IsDigit(s[n]))
  {
    if s != "" && IsDigit(s[0]) then 1 + DigitRun(s[1..]) else 0
  }

  /** The length of the longest beginning without digits and points. */
  function UnitRun(s: string): (n: nat)
    ensures n <= |s|
  {
    if s != "" && !IsDigit(s[0]) && s[0] != '.' then 1 + UnitRun(s[1..]) else 0
  }

  function Quotient(a: nat, p: nat): (q: nat)
    requires p > 0
    ensures q * p <= a < q * p + p
  {
    var q := a / p;
    assert a == q * p + a % p;
    q
  }

  /** `whole.fraction` units, rounded down. */
  function Worth(whole: string, fraction: string, unit: nat): nat
    requires AllDigits(whole + fraction)
  {
    Quotient(DigitsValue(whole + fraction) * unit, Pow10(|fraction|))
  }

  /** Where a number ends whose digits before a point end at `i`. */
  function NumberEnd(s: string, i: nat): (j: nat)
    requires i <= |s|
    ensures i <= j <= |s| && AllDigits(FractionText(s, i, j))
  {
    if i < |s| && s[i] == '.' then i + 1 + DigitRun(s[i + 1..]) else i
  }

  function FractionText(s: string, i: nat, j: nat): string
    requires i <= j <= |s|
  {
    if i < j then s[i + 1..j] else ""
  }

  /** One number with its unit: what it is worth, and what follows. */
  function ReadNumber(s: string): (r: Option<(nat, string)>)
    ensures r.Some? ==> |r.value.1| < |s|
  {
    var i := DigitRun(s);
    var j := NumberEnd(s, i);
    var k := j + UnitRun(s[j..]);
    var fraction, unit := FractionText(s, i, j), UnitOf(s[j..k]);
    if s[..i] + fraction == "" || unit.None? then None else Some((Worth(s[..i], fraction, unit.value), s[k..]))
  }

  function ReadUnits(s: string): Option<nat>
    decreases |s|
  {
    if s == "" then Some(0)
    else
      match ReadNumber(s)
      case None => None
      case Some((n, rest)) => Plus(n, ReadUnits(rest))
  }

  function Plus(n: nat, r: Option<nat>): Option<nat> {
    match r
    case None => None
    case Some(m) => Some(n + m)
  }

  function ReadDuration(s: string): Option<int> {
    var negative := s != "" && s[0] == '-';
    var rest := if s != "" && (s[0] == '-' || s[0] == '+') then s[1..] else s;
    if rest == "0" then Some(0)
    else if rest == "" then None
    else
      match ReadUnits(rest)
      case None => None
      case Some(n) =>
        var v: int := n;
        if negative then (if v <= TWO_63 then Some(-v) else None) else if v < TWO_63 then Some(v) else None
  }

  // ---------- numbers ----------

  lemma {:induction false} DecimalDigits(n: nat)
    ensures Decimal(n) != "" && AllDigits(Decimal(n)) && DigitsValue(Decimal(n)) == n
  {
    if n >= 10 {
      DecimalDigits(n / 10);
      var front := Decimal(n / 10);
      assert (front + [Digit(n)])[..|front|] == front;
    } else {
      assert DigitsValue([]) == 0;
      assert Decimal(n)[..0] == [];
    }
  }

  lemma OneDigitMore(s: string, c: char)
    requires AllDigits(s) && IsDigit(c)
    ensures AllDigits(s + [c]) && DigitsValue(s + [c]) == 10 * DigitsValue(s) + (c as int - '0' as int)
  {
    assert (s + [c])[..|s|] == s;
  }

  lemma {:induction false} DigitsJoin(s: string, t: string)
    requires AllDigits(s) && AllDigits(t)
    ensures AllDigits(s + t) && DigitsValue(s + t) == DigitsValue(s) * Pow10(|t|) + DigitsValue(t)
    decreases |t|
  {
    if t == "" {
      assert s + t == s;
      assert DigitsValue(t) == 0;
    } else {
      var n := |t| - 1;
      var front, last := t[..n], t[n];
      DigitsJoin(s, front);
      OneDigitMore(s + front, last);
      OneDigitMore(front, last);
      assert s + t == (s + front) + [last] && t == front + [last];
      TenTimes(DigitsValue(s), n);
    }
  }

  lemma TenTimes(x: nat, n: nat)
    ensures x * Pow10(n + 1) == 10 * (x * Pow10(n))
  {
  }

  lemma {:induction false} PowersMultiply(a: nat, b: nat)
    ensures Pow10(a + b) == Pow10(a) * Pow10(b)
  {
    if a == 0 {
    } else {
      PowersMultiply(a - 1, b);
      assert Pow10(a) * Pow10(b) == 10 * (Pow10(a - 1) * Pow10(b));
    }
  }

  /** The digits that stand for the last `prec` decimal digits of `v`, the last ones left out if zero. */
  predicate Shows(ds: string, v: nat, prec: nat) {
    AllDigits(ds) && |ds| <= prec && DigitsValue(ds) * Pow10(prec - |ds|) == v % Pow10(prec)
  }

  lemma LastDigit(v: nat, prec: nat)
    requires prec > 0
    ensures v % Pow10(prec) == 10 * (v / 10 % Pow10(prec - 1)) + v % 10
  {
    var p := Pow10(prec - 1);
    var q, r := v / 10 / p, v / 10 % p;
    assert v / 10 == p * q + r;
    assert v == 10 * (v / 10) + v % 10;
    var m := 10 * r + v % 10;
    assert v == (10 * p) * q + m by { assert 10 * (p * q) == (10 * p) * q; }
    assert 0 <= m < 10 * p;
    Remainder(v, 10 * p, q, m);
  }

  lemma Multiples(d: int, p: nat)
    requires p > 0
    ensures d >= 1 ==> d * p >= p
    ensures d <= -1 ==> d * p <= -(p as int)
  {
    if d >= 1 {
      assert d * p == (d - 1) * p + p;
    } else if d <= -1 {
      assert d * p == -((-1 - d) * p) - p;
    }
  }

  lemma Remainder(v: nat, p: nat, q: nat, m: nat)
    requires p > 0 && v == p * q + m && m < p
    ensures v % p == m
  {
    var q', m' := v / p, v % p;
    assert v == p * q' + m';
    assert (q - q') * p == p * q - p * q' == m' - m;
    Multiples(q - q', p);
  }

  lemma {:induction false} ShownFraction(v: nat, prec: nat) returns (ds: string)
    ensures Fraction(v, prec, true) == "." + ds && |ds| == prec && Shows(ds, v, prec)
    decreases prec
  {
    if prec == 0 {
      ds := "";
      assert DigitsValue("") == 0;
    } else {
      var before := ShownFraction(v / 10, prec - 1);
      ds := before + [Digit(v)];
      OneDigitMore(before, Digit(v));
      LastDigit(v, prec);
      Assoc(".", before, [Digit(v)]);
    }
  }

  /** A fraction is nothing, or a point and digits. */
  lemma {:induction false} FractionDigits(v: nat, prec: nat) returns (ds: string)
    ensures Fraction(v, prec, false) == (if ds == "" then "" else "." + ds) && Shows(ds, v, prec)
    decreases prec
  {
    if prec == 0 {
      ds := "";
      assert DigitsValue("") == 0;
    } else if v % 10 == 0 {
      ds := FractionDigits(v / 10, prec - 1);
      LastDigit(v, prec);
      Shifted(DigitsValue(ds), prec, |ds|);
      assert Fraction(v, prec, false) == Fraction(v / 10, prec - 1, false) + "";
    } else {
      var before := ShownFraction(v / 10, prec - 1);
      ds := before + [Digit(v)];
      OneDigitMore(before, Digit(v));
      LastDigit(v, prec);
      Assoc(".", before, [Digit(v)]);
    }
  }

  lemma Shifted(x: nat, prec: nat, n: nat)
    requires n < prec
    ensures x * Pow10(prec - n) == 10 * (x * Pow10(prec - 1 - n))
  {
  }

  lemma Regrouped(whole: nat, x: nat, p: nat, rest: nat)
    ensures (whole * p + x) * (p * rest) == (whole * (p * rest) + x * rest) * p
  {
    assert (whole * p + x) * (p * rest) == ((whole * p + x) * rest) * p;
    assert (whole * p + x) * rest == whole * p * rest + x * rest;
    assert whole * p * rest == whole * (p * rest);
  }

  lemma Divides(a: nat, p: nat)
    requires p > 0
    ensures Quotient(a * p, p) == a
  {
    hide Quotient;
    var q := Quotient(a * p, p);
    assert (a - q) * p == a * p - q * p;
    Multiples(a - q, p);
  }

  /** A number with such a fraction, in units of 10^prec, is worth what it was made from. */
  lemma WorthOf(whole: nat, ds: string, v: nat, prec: nat)
    requires Shows(ds, v, prec)
    ensures AllDigits(Decimal(whole) + ds) && Worth(Decimal(whole), ds, Pow10(prec)) == whole * Pow10(prec) + v % Pow10(prec)
  {
    hide Decimal, DigitsValue, Quotient, Pow10;
    DecimalDigits(whole);
    DigitsJoin(Decimal(whole), ds);
    var p, x, rest := Pow10(|ds|), DigitsValue(ds), Pow10(prec - |ds|);
    PowersMultiply(|ds|, prec - |ds|);
    Regrouped(whole, x, p, rest);
    Divides(whole * (p * rest) + x * rest, p);
  }

  // ---------- reading one number with its unit ----------

  lemma {:induction false} DigitRunOf(s: string, t: string)
    requires AllDigits(s) && (t != "" ==> !IsDigit(t[0]))
    ensures DigitRun(s + t) == |s|
  {
    if s == "" {
      assert s + t == t;
    } else {
      assert (s + t)[1..] == s[1..] + t;
      DigitRunOf(s[1..], t);
    }
  }

  predicate IsUnitText(u: string) {
    u != "" && forall i :: 0 <= i < |u| ==> !IsDigit(u[i]) && u[i] != '.'
  }

  lemma {:induction false} UnitRunOf(u: string, t: string)
    requires (forall i :: 0 <= i < |u| ==> !IsDigit(u[i]) && u[i] != '.') && (t != "" ==> IsDigit(t[0]))
    ensures UnitRun(u + t) == |u|
  {
    if u == "" {
      assert u + t == t;
    } else {
      assert (u + t)[1..] == u[1..] + t;
      UnitRunOf(u[1..], t);
    }
  }

  function Pointed(fraction: string): string {
    if fraction == "" then "" else "." + fraction
  }

  /** One number with its unit, found where the runs end. */
  lemma ReadsOne(s: string, i: nat, j: nat, unit: string, rest: string)
    requires DigitRun(s) == i && i > 0 && j == NumberEnd(s, i) && s[j..] == unit + rest && UnitRun(s[j..]) == |unit|
    requires IsUnitText(unit) && UnitOf(unit).Some?
    ensures AllDigits(s[..i] + FractionText(s, i, j))
    ensures ReadUnits(s) == Plus(Worth(s[..i], FractionText(s, i, j), UnitOf(unit).value), ReadUnits(rest))
  {
    hide Worth, UnitOf, DigitRun, UnitRun, NumberEnd, FractionText;
    ReadsFrom(s, i, j, unit, rest);
  }

  lemma ReadsWhole(whole: string, unit: string, rest: string)
    requires whole != "" && AllDigits(whole) && IsUnitText(unit) && UnitOf(unit).Some? && (rest != "" ==> IsDigit(rest[0]))
    ensures AllDigits(whole + "")
    ensures ReadUnits(whole + (unit + rest)) == Plus(Worth(whole, "", UnitOf(unit).value), ReadUnits(rest))
  {
    hide Worth, UnitOf, DigitRun, UnitRun, ReadUnits;
    var s, i := whole + (unit + rest), |whole|;
    DigitRunOf(whole, unit + rest);
    UnitRunOf(unit, rest);
    assert s[..i] == whole && s[i..] == unit + rest && s[i] == unit[0] && whole + "" == whole;
    ReadsOne(s, i, i, unit, rest);
  }

  lemma ReadsPointed(whole: string, fraction: string, unit: string, rest: string)
    requires whole != "" && AllDigits(whole) && AllDigits(fraction) && IsUnitText(unit) && UnitOf(unit).Some?
    requires fraction != "" && (rest != "" ==> IsDigit(rest[0]))
    ensures AllDigits(whole + fraction)
    ensures ReadUnits(whole + ("." + fraction + (unit + rest))) == Plus(Worth(whole, fraction, UnitOf(unit).value), ReadUnits(rest))
  {
    hide Worth, UnitOf, DigitRun, UnitRun, ReadUnits;
    var tail := unit + rest;
    var s := whole + ("." + fraction + tail);
    var i, j := |whole|, |whole| + 1 + |fraction|;
    DigitRunOf(whole, "." + fraction + tail);
    UnitRunOf(unit, rest);
    assert s[i] == '.' && s[i + 1..] == fraction + tail && s[..i] == whole;
    DigitRunOf(fraction, tail);
    assert s[i + 1..j] == fraction && s[j..] == tail;
    ReadsOne(s, i, j, unit, rest);
  }

  /** A number, its fraction if any, its unit, and what follows. */
  lemma ReadsPart(whole: string, fraction: string, unit: string, rest: string)
    requires whole != "" && AllDigits(whole) && AllDigits(fraction) && IsUnitText(unit) && UnitOf(unit).Some?
    requires rest != "" ==> IsDigit(rest[0])
    ensures AllDigits(whole + fraction)
    ensures ReadUnits(whole + (Pointed(fraction) + (unit + rest))) == Plus(Worth(whole, fraction, UnitOf(unit).value), ReadUnits(rest))
  {
    hide Worth, UnitOf, ReadUnits;
    if fraction == "" {
      assert Pointed(fraction) + (unit + rest) == unit + rest;
      ReadsWhole(whole, unit, rest);
    } else {
      ReadsPointed(whole, fraction, unit, rest);
    }
  }

  lemma ReadsFrom(s: string, i: nat, j: nat, unit: string, rest: string)
    requires i <= j <= |s| && s[j..] == unit + rest && IsUnitText(unit)
    ensures s[j..j + |unit|] == unit && s[j + |unit|..] == rest && s != ""
  {
    var tail := s[j..];
    assert tail[..|unit|] == unit && tail[|unit|..] == rest;
  }

  // ---------- what is printed is read back ----------

  lemma NothingRead()
    ensures ReadUnits("") == Some(0)
  {
  }

  lemma WholeWorth(n: nat, unit: nat)
    ensures AllDigits(Decimal(n) + "") && Worth(Decimal(n), "", unit) == n * unit
  {
    hide Decimal, DigitsValue, Quotient;
    DecimalDigits(n);
    assert Decimal(n) + "" == Decimal(n) && Pow10(0) == 1;
    Divides(n * unit, 1);
  }

  /** A whole number of units. */
  lemma ReadsUnits(n: nat, unit: string, rest: string)
    requires IsUnitText(unit) && UnitOf(unit).Some? && (rest != "" ==> IsDigit(rest[0]))
    ensures ReadUnits(Decimal(n) + (unit + rest)) == Plus(n * UnitOf(unit).value, ReadUnits(rest))
  {
    hide Decimal, DigitsValue, Worth, ReadUnits, UnitOf;
    DecimalDigits(n);
    WholeWorth(n, UnitOf(unit).value);
    ReadsPart(Decimal(n), "", unit, rest);
    assert Pointed("") + (unit + rest) == unit + rest;
  }

  /** A number with the fraction that `v` leaves, in units of 10^prec. */
  lemma ReadsWithFraction(n: nat, v: nat, prec: nat, unit: string)
    requires IsUnitText(unit) && UnitOf(unit) == Some(Pow10(prec))
    ensures ReadUnits(Decimal(n) + Fraction(v, prec, false) + unit) == Some(n * Pow10(prec) + v % Pow10(prec))
  {
    hide Decimal, DigitsValue, Worth, ReadUnits, UnitOf, Pow10, Shows, Fraction;
    var ds := FractionDigits(v, prec);
    DecimalDigits(n);
    ShownDigits(ds, v, prec);
    WorthOf(n, ds, v, prec);
    ReadsPart(Decimal(n), ds, unit, "");
    NothingRead();
    assert unit + "" == unit;
    Assoc(Decimal(n), Fraction(v, prec, false), unit);
  }

  lemma ShownDigits(ds: string, v: nat, prec: nat)
    requires Shows(ds, v, prec)
    ensures AllDigits(ds)
  {
  }

  lemma Powers()
    ensures Pow10(3) == 1_000 && Pow10(6) == 1_000_000 && Pow10(9) == 1_000_000_000
  {
    assert Pow10(3) == 1_000;
    PowersMultiply(3, 3);
    PowersMultiply(6, 3);
  }

  /** Hours and minutes in front of what is read. */
  lemma ReadsMinutes(minutes: nat, rest: string)
    requires rest != "" && IsDigit(rest[0])
    ensures ReadUnits(HoursAndMinutes(minutes) + rest) == Plus(minutes * 60_000_000_000, ReadUnits(rest))
  {
    hide Decimal, ReadUnits;
    if minutes == 0 {
      assert "" + rest == rest;
    } else if minutes < 60 {
      ReadsUnits(minutes, "m", rest);
      Assoc(Decimal(minutes), "m", rest);
    } else {
      var h, m := minutes / 60, minutes % 60;
      DecimalDigits(m);
      ReadsUnits(m, "m", rest);
      ReadsUnits(h, "h", Decimal(m) + ("m" + rest));
      HourText(Decimal(h), Decimal(m), rest);
      assert HoursAndMinutes(minutes) == Decimal(h) + "h" + Decimal(m) + "m";
      DigitFirst(Decimal(m), "m" + rest);
      assert minutes == 60 * h + m;
    }
  }

  lemma DigitFirst(s: string, t: string)
    requires s != "" && AllDigits(s)
    ensures IsDigit((s + t)[0])
  {
  }

  lemma HourText(a: string, b: string, rest: string)
    ensures (a + "h" + b + "m") + rest == a + ("h" + (b + ("m" + rest)))
  {
  }

  lemma ReadsSeconds(u: nat)
    requires u >= 1_000_000_000
    ensures ReadUnits(Magnitude(u)) == Some(u)
  {
    hide Decimal, ReadUnits, HoursAndMinutes, Fraction;
    var total := u / 1_000_000_000;
    var minutes, seconds := total / 60, total % 60;
    Powers();
    var last := Decimal(seconds) + Fraction(u, 9, false) + "s";
    ReadsWithFraction(seconds, u, 9, "s");
    DecimalDigits(seconds);
    ReadsMinutes(minutes, last);
    assert Magnitude(u) == HoursAndMinutes(minutes) + last by {
      Assoc4(HoursAndMinutes(minutes), Decimal(seconds), Fraction(u, 9, false), "s");
      Assoc(Decimal(seconds), Fraction(u, 9, false), "s");
    }
    assert u == total * 1_000_000_000 + u % 1_000_000_000 && total == minutes * 60 + seconds;
  }

  lemma ReadsMagnitude(u: nat)
    requires u > 0
    ensures ReadUnits(Magnitude(u)) == Some(u)
  {
    hide Decimal, ReadUnits, Fraction;
    Powers();
    if u < 1_000 {
      ReadsUnits(u, "ns", "");
      NothingRead();
      assert "ns" + "" == "ns";
    } else if u < 1_000_000 {
      ReadsWithFraction(u / 1_000, u, 3, "\U{00B5}s");
    } else if u < 1_000_000_000 {
      ReadsWithFraction(u / 1_000_000, u, 6, "ms");
    } else {
      ReadsSeconds(u);
    }
  }

  lemma StartsWithDigit(u: nat)
    requires u > 0
    ensures Magnitude(u) != "" && IsDigit(Magnitude(u)[0]) && Magnitude(u) != "0"
  {
    hide Decimal, Fraction, ReadUnits;
    ReadsMagnitude(u);
    LeadingDigits(u);
    assert Magnitude(u) == "0" ==> ReadUnits("0") == Some(u);
    NoUnit();
  }

  lemma NoUnit()
    ensures ReadUnits("0") == None
  {
    assert DigitRun("0") == 1 by { DigitRunOf("0", ""); assert "0" + "" == "0"; }
    assert UnitRun("0"[1..]) == 0;
    assert "0"[1..1] == "" && UnitOf("") == None;
  }

  lemma LeadingDigits(u: nat)
    requires u > 0
    ensures Magnitude(u) != "" && IsDigit(Magnitude(u)[0])
  {
    hide Decimal, Fraction;
    DecimalDigits(u);
    DecimalDigits(u / 1_000);
    DecimalDigits(u / 1_000_000);
    var total := u / 1_000_000_000;
    DecimalDigits(total % 60);
    DecimalDigits(total / 60);
    DecimalDigits(total / 60 / 60);
  }

  /** Every 64-bit duration that is printed is read back. */
  lemma ReadShow(d: int)
    requires -0x8000_0000_0000_0000 <= d < 0x8000_0000_0000_0000
    ensures ReadDuration(Show(d)) == Some(d)
  {
    hide Magnitude, ReadUnits;
    if d == 0 {
      ReadZero();
    } else {
      var u := if d < 0 then -d else d;
      ReadsMagnitude(u);
      StartsWithDigit(u);
      var s := Magnitude(u);
      assert ("-" + s)[1..] == s;
    }
  }

  lemma ReadZero()
    ensures ReadDuration(Show(0)) == Some(0)
  {
    hide ReadUnits;
    DecimalDigits(0);
    assert Decimal(0) == "0";
    ReadsUnits(0, "s", "");
    NothingRead();
    assert "0" + ("s" + "") == "0s";
  }

  /** Whole seconds print without a fraction. */
  lemma ShowWholeSeconds(n: nat)
    requires n > 0
    ensures '.' !in Show(n * 1_000_000_000)
  {
    hide Show, Decimal;
    WholeSeconds(n);
    DecimalDigits(n % 60);
    DecimalDigits(n / 60);
    DecimalDigits(n / 60 / 60);
    DecimalDigits(n / 60 % 60);
  }
}
