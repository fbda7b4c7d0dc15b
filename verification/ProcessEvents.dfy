/** The process-exit event codec: event count or timestamp, exit code and PID-1 flag in one number
    (internal/container/events.go). Decoding is modelled over the reals. */
module ProcessEvents {

  const EXIT_CODE_FACTOR := 1000.0
  const RESIDUAL_FACTOR := 10.0
  const FRACTION_OFFSET := 0.5
  const MAX_EVENT_COUNT := 100

  // ---------- Go's rounding of reals ----------

  function Abs(x: real): real {
    if x < 0.0 then -x else x
  }

  /** `math.Round`: to the nearest integer, halves away from zero. */
  function Round(x: real): (n: int)
    ensures n as real - 0.5 <= x <= n as real + 0.5
    ensures x >= 0.0 ==> x < n as real + 0.5
    ensures x <= 0.0 ==> n as real - 0.5 < x
  {
    if x >= 0.0 then (x + 0.5).Floor else -((-x + 0.5).Floor)
  }

  /** The integer part of `math.Modf`: truncation toward zero. */
  function IntegerPart(x: real): (n: int)
    ensures x >= 0.0 ==> n as real <= x < n as real + 1.0
    ensures x <= 0.0 ==> n as real - 1.0 < x <= n as real
  {
    if x >= 0.0 then x.Floor else -((-x).Floor)
  }

  /** Go's integer division truncates toward zero. */
  function Quotient(a: int, b: int): int
    requires b != 0
  {
    if (a >= 0) == (b > 0) then Magnitude(a) / Magnitude(b) else -(Magnitude(a) / Magnitude(b))
  }

  function Magnitude(a: int): nat {
    if a < 0 then -a else a
  }

  // ---------- the decoder ----------

  /** Times are in milliseconds. */
  datatype Event = Event(time: int, exitCode: int, isPid1: bool, count: int)

  /** `TimeAndValues` for a sample; `start` is the least possible timestamp in seconds. */
  function Decode(value: real, sampleTime: int, start: int): Event
    requires start != 0
  {
    var n := IntegerPart(value);
    var (count, time) := CountAndTime(n, sampleTime, start);
    var f := (value - n as real - FRACTION_OFFSET) * EXIT_CODE_FACTOR;
    var exitCode := Round(f);
    Event(time, exitCode, Round(Abs(f - exitCode as real) * RESIDUAL_FACTOR) == 0, count)
  }

  /** The count and the time for an integer part. */
  function CountAndTime(n: int, sampleTime: int, start: int): (int, int)
    requires start != 0
  {
    if n <= MAX_EVENT_COUNT then (n, sampleTime)
    else
      var count := if Quotient(n, start) == 0 then 1 else Quotient(n, start);
      (count, 1000 * Quotient(n, count))
  }

  // ---------- the encoder ----------

  /** The number an event query computes for an integer part, an exit code and a flag. */
  function Encode(n: int, exitCode: int, isPid1: bool): real {
    n as real + exitCode as real / 1000.0 + (if isPid1 then 0.0 else 0.0001) + 0.5
  }

  // ---------- exit code and flag ----------

  /** Any perturbation below 1/20000 leaves the integer part, the exit code and the flag intact. */
  lemma FractionSurvives(n: nat, exitCode: int, isPid1: bool, error: real, sampleTime: int, start: int)
    requires 0 <= exitCode <= 255 && start != 0 && Abs(error) < 1.0 / 20000.0
    ensures var value := Encode(n, exitCode, isPid1) + error;
            var event := Decode(value, sampleTime, start);
            && IntegerPart(value) == n
            && event.exitCode == exitCode && event.isPid1 == isPid1
            && (event.count, event.time) == CountAndTime(n, sampleTime, start)
  {
    var value := Encode(n, exitCode, isPid1) + error;
    assert exitCode as real / 1000.0 <= 0.255;
    var m := IntegerPart(value);
    assert n as real < value < n as real + 1.0;
    assert m == n;
    var f := (value - n as real - 0.5) * 1000.0;
    var flag := if isPid1 then 0.0 else 0.1;
    assert f == exitCode as real + flag + error * 1000.0;
    assert Round(f) == exitCode;
    var r := Abs(f - exitCode as real) * 10.0;
    assert Round(r) == if isPid1 then 0 else 1;
  }

  /** And 1/20000 is the limit: with the flag set, any larger error loses the integer part, the exit code
      or the flag. */
  lemma FlagToleranceIsExact(n: nat, exitCode: int, error: real, sampleTime: int, start: int)
    requires 0 <= exitCode <= 255 && start != 0
    ensures var value := Encode(n, exitCode, true) + error;
            var event := Decode(value, sampleTime, start);
            IntegerPart(value) == n && event.exitCode == exitCode && event.isPid1 <==> Abs(error) < 1.0 / 20000.0
  {
    var value := Encode(n, exitCode, true) + error;
    var f := (value - n as real - 0.5) * 1000.0;
    assert f == exitCode as real + error * 1000.0;
    if Abs(error) < 1.0 / 20000.0 {
      FractionSurvives(n, exitCode, true, error, sampleTime, start);
    } else if IntegerPart(value) == n && Round(f) == exitCode {
      assert Abs(f - exitCode as real) * 10.0 >= 0.5;
    }
  }

  // ---------- rounding while the value is computed ----------

  const TWO_38 := 274_877_906_944
  const ULP := 1.0 / 32768.0

  /** `y` is a nearest double to `x` in the binades below 2^38, where doubles are 2^-15 apart at most
      (section 4.3.1 of IEEE 754-2019). */
  predicate RoundsTo(x: real, y: real) {
    0.0 <= x < TWO_38 as real && Abs(x - y) <= ULP / 2.0
  }

  /** The fraction is itself a rounded double below one, off by at most 2^-53. */
  predicate IsFraction(fraction: real, exitCode: int, isPid1: bool) {
    Abs(fraction - (exitCode as real / 1000.0 + (if isPid1 then 0.0 else 0.0001))) <= ULP / (32768.0 * 8388608.0)
  }

  /** The decoder's operations are rounded as well. Taking the value apart is exact; doubles below 512 are
      2^-44 apart at most, so no other step is off by more than this. */
  const STEP := 1.0 / 17_592_186_044_416.0

  /** What the decoder computes: the difference to the offset, the scaled fraction, its distance to the
      exit code, and the scaled distance. */
  predicate Computes(value: real, less: real, f: real, distance: real, scaled: real) {
    && Abs(less - (value - IntegerPart(value) as real - 0.5)) <= STEP / 2048.0
    && Abs(f - less * 1000.0) <= STEP
    && Abs(distance - Abs(f - Round(f) as real)) <= STEP
    && Abs(scaled - distance * 10.0) <= STEP
  }

  /** With the two additions of the event query rounded, and every step of the decoder, the integer part,
      the exit code and the flag come out right. */
  lemma RoundingSurvives(n: nat, exitCode: int, isPid1: bool, fraction: real, sum: real, value: real,
                         less: real, f: real, distance: real, scaled: real)
    requires 0 <= exitCode <= 255
    requires IsFraction(fraction, exitCode, isPid1)
    requires RoundsTo(n as real + fraction, sum) && RoundsTo(sum + 0.5, value)
    requires Computes(value, less, f, distance, scaled)
    ensures IntegerPart(value) == n && Round(f) == exitCode && (Round(scaled) == 0 <==> isPid1)
  {
    var error := value - Encode(n, exitCode, isPid1);
    assert Abs(error) <= ULP + ULP / (32768.0 * 8388608.0);
    FractionSurvives(n, exitCode, isPid1, error, 0, 1);
    var flag := if isPid1 then 0.0 else 0.1;
    var exact := exitCode as real + flag + error * 1000.0;
    assert (value - n as real - 0.5) * 1000.0 == exact;
    assert Abs(f - exact) <= 2.0 * STEP;
    ScaledIsNear(exitCode, flag, error, f, distance, scaled);
  }

  lemma ScaledIsNear(exitCode: int, flag: real, error: real, f: real, distance: real, scaled: real)
    requires flag == 0.0 || flag == 0.1
    requires Abs(error) < 0.00004 && Abs(f - (exitCode as real + flag + error * 1000.0)) <= 2.0 * STEP
    requires Abs(distance - Abs(f - Round(f) as real)) <= STEP && Abs(scaled - distance * 10.0) <= STEP
    ensures Round(f) == exitCode && (Round(scaled) == 0 <==> flag == 0.0)
  {
    assert Round(f) == exitCode;
    assert Abs(distance - Abs(flag + error * 1000.0)) <= 3.0 * STEP;
    assert Abs(scaled - Abs(flag + error * 1000.0) * 10.0) <= 31.0 * STEP;
  }

  /** The fraction configured for hidden out-of-memory kills means exit code 137 of a process that is
      not PID 1. */
  lemma HiddenOomKill(n: nat, sampleTime: int, start: int)
    requires start != 0
    ensures var event := Decode(n as real + 0.1371 + 0.5, sampleTime, start);
            event.exitCode == 137 && !event.isPid1
  {
    FractionSurvives(n, 137, false, 0.0, sampleTime, start);
  }

  // ---------- count and timestamp ----------

  lemma QuotientIs(a: nat, b: nat, q: nat)
    requires b > 0
    ensures Quotient(a, b) == q <==> q * b <= a < (q + 1) * b
  {
    var r := a / b;
    assert a == r * b + a % b;
    ScaleOrder(r + 1, q, b);
    ScaleOrder(q + 1, r, b);
    assert b * (r + 1) == r * b + b && b * (q + 1) == (q + 1) * b;
  }

  lemma ProductBounds(timestamp: nat, count: nat, start: nat)
    requires count > 0
    ensures count * start <= timestamp * count < (count + 1) * start
            <==> start <= timestamp && count * (timestamp - start) < start
  {
    ScaleOrder(start, timestamp, count);
    assert timestamp * count - count * start == count * (timestamp - start);
    assert (count + 1) * start == count * start + start;
  }

  lemma QuotientOfProduct(timestamp: nat, count: nat)
    requires count > 0
    ensures Quotient(timestamp * count, count) == timestamp
  {
    QuotientIs(timestamp * count, count, timestamp);
    assert (timestamp + 1) * count == timestamp * count + count;
  }

  lemma AtLeast(timestamp: nat, count: nat)
    requires count > 0
    ensures timestamp * count >= timestamp
  {
    ScaleOrder(1, count, timestamp + 1);
    assert timestamp * count == timestamp + timestamp * (count - 1);
    assert timestamp * (count - 1) >= 0;
  }

  /** A timestamp multiplied by a count is taken apart correctly just when the count times the
      timestamp's distance to the start stays below the start, or a single event lies before it. */
  lemma TimestampDecodes(timestamp: nat, count: nat, start: nat, sampleTime: int)
    requires start > 0 && count > 0 && timestamp > 100
    ensures CountAndTime(timestamp * count, sampleTime, start) == (count, 1000 * timestamp)
            <==> (count == 1 && timestamp < start) || (start <= timestamp && count * (timestamp - start) < start)
  {
    var n := timestamp * count;
    AtLeast(timestamp, count);
    QuotientIs(n, start, count);
    ProductBounds(timestamp, count, start);
    QuotientOfProduct(timestamp, count);
    SmallQuotient(n, start);
    hide Quotient;
    assert count == 1 ==> n == timestamp;
  }

  lemma SmallQuotient(n: nat, start: nat)
    requires start > 0
    ensures Quotient(n, start) == 0 <==> n < start
  {
    QuotientIs(n, start, 0);
  }

  lemma ScaleOrder(a: int, b: int, k: nat)
    requires k > 0
    ensures k * a <= k * b <==> a <= b
  {
    if a < b {
      ScaleUp(a, b, k);
    } else if b < a {
      ScaleUp(b, a, k);
    }
  }

  lemma {:induction false} ScaleUp(a: int, b: int, k: nat)
    requires k > 0 && a < b
    ensures k * a < k * b
    decreases k
  {
    if k > 1 {
      ScaleUp(a, b, k - 1);
      assert k * a == (k - 1) * a + a && k * b == (k - 1) * b + b;
    }
  }

  /** A bare count is returned with the sample's time, and never mistaken for a timestamp. */
  lemma CountDecodes(count: int, timestamp: nat, events: nat, sampleTime: int, start: int)
    requires start != 0 && events > 0 && timestamp > 100
    ensures count <= 100 ==> CountAndTime(count, sampleTime, start) == (count, sampleTime)
    ensures count <= 100 ==> count != timestamp * events
  {
    AtLeast(timestamp, events);
  }

  /** The whole round trip of an event with an embedded timestamp. */
  lemma EventRoundTrip(timestamp: nat, count: nat, exitCode: int, isPid1: bool, error: real, start: nat, sampleTime: int)
    requires 0 <= exitCode <= 255 && Abs(error) < 0.00005
    requires count > 0 && timestamp > 100 && start > 0
    requires (count == 1 && timestamp < start) || (start <= timestamp && count * (timestamp - start) < start)
    ensures var fraction := exitCode as real / 1000.0 + if isPid1 then 0.0 else 0.0001;
            Decode((timestamp * count) as real + fraction + 0.5 + error, sampleTime, start)
            == Event(1000 * timestamp, exitCode, isPid1, count)
  {
    FractionSurvives(timestamp * count, exitCode, isPid1, error, sampleTime, start);
    TimestampDecodes(timestamp, count, start, sampleTime);
    EncodedIs(timestamp * count, exitCode, isPid1);
  }

  /** And of one without, whose count is at most 100. */
  lemma CountRoundTrip(count: nat, exitCode: int, isPid1: bool, error: real, start: nat, sampleTime: int)
    requires 0 <= exitCode <= 255 && Abs(error) < 0.00005
    requires count <= 100 && start > 0
    ensures var fraction := exitCode as real / 1000.0 + if isPid1 then 0.0 else 0.0001;
            Decode(count as real + fraction + 0.5 + error, sampleTime, start)
            == Event(sampleTime, exitCode, isPid1, count)
  {
    FractionSurvives(count, exitCode, isPid1, error, sampleTime, start);
    EncodedIs(count, exitCode, isPid1);
  }

  lemma EncodedIs(n: nat, exitCode: int, isPid1: bool)
    ensures Encode(n, exitCode, isPid1)
            == n as real + (exitCode as real / 1000.0 + if isPid1 then 0.0 else 0.0001) + 0.5
  {
  }
}
