/** How an exporter's scrape interval is recovered from the number of its samples
    (internal/common/prometheus.go:470-474). */
module ScrapeIntervals {
  import opened Duration

  const HALF := 500_000_000

  /** `Duration.Round(time.Second)`, halves up, saturating at the greatest duration. */
  function RoundToSecond(d: nat): (r: nat)
    requires d < TWO_63
    ensures r % SECOND == 0 || r == TWO_63 - 1
  {
    var rest := d % SECOND;
    if rest + rest < SECOND then d - rest
    else if d + (SECOND - rest) < TWO_63 then d + (SECOND - rest)
    else TWO_63 - 1
  }

  /** The place a scrape interval is written to. */
  class Target {
    var duration: int

    constructor ()
      ensures duration == 0
    {
      duration := 0;
    }
  }

  /** `setScrapeInterval`: a series without samples leaves the target alone. */
  method SetScrapeInterval(target: Target, interval: nat, values: seq<nat>)
    requires interval < TWO_63 && (values != [] ==> values[0] != 0)
    modifies target
    ensures target.duration == if values == [] then old(target.duration) else Recovered(interval, values[0])
  {
    if |values| > 0 {
      QuotientBelow(interval, values[0]);
      target.duration := RoundToSecond(interval / values[0]);
    }
  }

  function Recovered(interval: nat, samples: nat): nat
    requires interval < TWO_63 && samples != 0
  {
    QuotientBelow(interval, samples);
    RoundToSecond(interval / samples)
  }

  lemma Monotonic(a: int, b: int, k: nat)
    requires a <= b
    ensures a * k <= b * k
  {
    assert (b - a) * k >= 0;
  }

  lemma QuotientBelow(a: nat, b: nat)
    requires b != 0
    ensures a / b <= a
  {
    QuotientAtMost(a, b, a + 1);
    Monotonic(1, b, a + 1);
  }

  /** Rounding yields `s` seconds just within half a second of it. */
  lemma RoundsToSeconds(d: nat, s: nat)
    requires d < TWO_63 - SECOND
    ensures RoundToSecond(d) == s * SECOND <==> s * SECOND - HALF <= d < s * SECOND + HALF
  {
    var q := d / SECOND;
    assert d == q * SECOND + d % SECOND;
  }

  lemma QuotientAtMost(a: nat, b: nat, c: nat)
    requires b > 0
    ensures a / b < c <==> a < c * b
  {
    var q := a / b;
    assert q * b <= a < (q + 1) * b by {
      assert a == q * b + a % b;
    }
    if q < c {
      Monotonic(q + 1, c, b);
    } else {
      Monotonic(c, q, b);
    }
  }

  /** `n` samples in an interval give `s` seconds just when the interval is within half a second times
      `n` of `n` times `s` seconds. */
  lemma RecoveredIs(interval: nat, n: nat, s: nat)
    requires n > 0 && s > 0 && interval < TWO_63 - 1_000_000_000
    ensures Recovered(interval, n) == s * 1_000_000_000
            <==> (s * 1_000_000_000 - 500_000_000) * n <= interval < (s * 1_000_000_000 + 500_000_000) * n
  {
    QuotientBelow(interval, n);
    RoundsToSeconds(interval / n, s);
    QuotientAtMost(interval, n, s * 1_000_000_000 + 500_000_000);
    QuotientAtMost(interval, n, s * 1_000_000_000 - 500_000_000);
  }

  /** A target scraped every `s` seconds for `k * s` seconds: one sample too few, the right number and
      one too many all give exactly `s` seconds just when `k >= 2 * s + 2`. */
  lemma OneSampleOff(s: nat, k: nat)
    requires s > 0 && k > 1 && k * s * 1_000_000_000 < TWO_63 - 1_000_000_000
    ensures var interval := k * s * 1_000_000_000;
            (forall n :: k - 1 <= n <= k + 1 ==> Recovered(interval, n) == s * 1_000_000_000) <==> k >= 2 * s + 2
  {
    var interval := k * s * 1_000_000_000;
    OffBy(s, k, 1);
    OffBy(s, k, 0);
    OffBy(s, k, -1);
    assert Recovered(interval, k - 1) == s * 1_000_000_000 <==> k >= 2 * s + 2;
  }

  lemma OffBy(s: nat, k: nat, off: int)
    requires s > 0 && 0 < k - off && k * s * 1_000_000_000 < TWO_63 - 1_000_000_000
    ensures Recovered(k * s * 1_000_000_000, k - off) == s * 1_000_000_000
            <==> -500_000_000 * (k - off) <= off * s * 1_000_000_000 < 500_000_000 * (k - off)
  {
    RecoveredIs(k * s * 1_000_000_000, k - off, s);
    Distribute(s, k, k - off);
    assert k - (k - off) == off;
  }

  lemma Distribute(s: int, k: int, n: int)
    ensures (s * 1_000_000_000 - 500_000_000) * n <= k * s * 1_000_000_000 < (s * 1_000_000_000 + 500_000_000) * n
            <==> -500_000_000 * n <= (k - n) * s * 1_000_000_000 < 500_000_000 * n
  {
    assert (s * 1_000_000_000 - 500_000_000) * n == n * s * 1_000_000_000 - 500_000_000 * n;
    assert (s * 1_000_000_000 + 500_000_000) * n == n * s * 1_000_000_000 + 500_000_000 * n;
    assert (k - n) * s * 1_000_000_000 == k * s * 1_000_000_000 - n * s * 1_000_000_000;
  }
}
