/**
 * Exact-arithmetic model of the time helpers in src/utils.ts.
 *
 * A high-resolution time is a `[seconds, nanoseconds]` pair. JavaScript numbers
 * are doubles; here the pair holds unbounded integers and milliseconds are reals,
 * so every identity below is exact.
 */
module TimeConversion {

  /** A `[seconds, nanoseconds]` pair; the components are not required to be normalised. */
  datatype HrTime = HrTime(seconds: int, nanos: int)

  const MillisPerSecond: int := 1000
  const NanosPerMilli: int := 1_000_000
  const NanosPerSecond: int := 1_000_000_000

  /** A non-negative pair whose nanosecond part is a proper fraction of a second. */
  predicate Normalised(t: HrTime)
  {
    t.seconds >= 0 && 0 <= t.nanos < NanosPerSecond
  }

  /** `Math.trunc`: the integer part, rounding toward zero. */
  function Trunc(x: real): (r: int)
    ensures x >= 0.0 ==> 0 <= r && r as real <= x < r as real + 1.0
    ensures x < 0.0 ==> r <= 0 && r as real - 1.0 < x <= r as real
  {
    if x >= 0.0 then x.Floor else -((-x).Floor)
  }

  /** `Math.round`: the nearest integer, halves rounded toward +infinity. */
  function Round(x: real): (r: int)
    ensures x - 0.5 < r as real <= x + 0.5
  {
    (x + 0.5).Floor
  }

  /** `hrTimeToMilliseconds`: `seconds * 1e3 + nanos / 1e6`, with no rounding. */
  function ToMillis(t: HrTime): real
  {
    t.seconds as real * MillisPerSecond as real + t.nanos as real / NanosPerMilli as real
  }

  /**
   * `millisToHrTime`: whole seconds by truncation, and the remainder `ms % 1000`
   * (JavaScript's remainder, which keeps the sign of `ms`) scaled to nanoseconds
   * and rounded. The result is not always normalised: rounding may yield exactly 1e9.
   */
  function FromMillis(ms: real): (r: HrTime)
    ensures ms >= 0.0 ==> r.seconds >= 0 && r.nanos >= 0
    ensures ms >= 0.0 ==> r.seconds as real * 1000.0 <= ms < (r.seconds + 1) as real * 1000.0
    ensures ms < 0.0 ==> r.seconds <= 0 && r.nanos <= 0
    ensures ms < 0.0 ==> (r.seconds - 1) as real * 1000.0 < ms <= r.seconds as real * 1000.0
    ensures -NanosPerSecond <= r.nanos <= NanosPerSecond
    ensures (ms - r.seconds as real * 1000.0) * 1_000_000.0 - 0.5 < r.nanos as real
            <= (ms - r.seconds as real * 1000.0) * 1_000_000.0 + 0.5
  {
    var seconds := Trunc(ms / 1000.0);
    var remainder := ms - seconds as real * 1000.0;
    HrTime(seconds, Round(remainder * NanosPerMilli as real))
  }

  /** `hrTimeToNanoseconds`, the sort key of the header builder: `seconds * 1e9 + nanos` over `int`. */
  function ToNanos(t: HrTime): int
  {
    t.seconds * NanosPerSecond + t.nanos
  }

  /** The worked case of the unit tests: 200 ms is 0 s and 200,000,000 ns. */
  lemma FromMillisExample()
    ensures FromMillis(200.0) == HrTime(0, 200_000_000)
    ensures ToMillis(FromMillis(200.0)) == 200.0
  {
  }

  /**
   * Rounding can carry the nanosecond part up to a full second: 999.9999999 ms
   * becomes `[0, 1e9]`, not `[1, 0]`.
   */
  lemma FromMillisNotNormalised()
    ensures FromMillis(999.9999999) == HrTime(0, 1_000_000_000)
    ensures !Normalised(FromMillis(999.9999999))
  {
  }

  /** Rounding an integer-valued real gives that integer back. */
  lemma RoundOfInteger(x: real, k: int)
    requires x == k as real
    ensures Round(x) == k
  {
  }

  /**
   * Round trip: when `ms` is a whole number of nanoseconds, converting to a pair
   * and back gives `ms` exactly.
   */
  lemma MillisRoundTrip(ms: real)
    requires (ms * 1_000_000.0).Floor as real == ms * 1_000_000.0
    ensures ToMillis(FromMillis(ms)) == ms
  {
    var s := Trunc(ms / 1000.0);
    var k := (ms * 1_000_000.0).Floor;
    var rem := ms - s as real * 1000.0;
    assert rem * 1_000_000.0 == (k - s * 1_000_000_000) as real;
    RoundOfInteger(rem * 1_000_000.0, k - s * 1_000_000_000);
    assert FromMillis(ms).nanos == k - s * 1_000_000_000;
  }

  /** The other direction: a normalised pair survives a trip through milliseconds. */
  lemma HrTimeRoundTrip(t: HrTime)
    requires Normalised(t)
    ensures FromMillis(ToMillis(t)) == t
  {
    var ms := ToMillis(t);
    assert ms / 1000.0 == t.seconds as real + t.nanos as real / 1_000_000_000.0;
    assert Trunc(ms / 1000.0) == t.seconds;
    var rem := ms - t.seconds as real * 1000.0;
    assert rem * 1_000_000.0 == t.nanos as real;
    RoundOfInteger(rem * 1_000_000.0, t.nanos);
  }

  /**
   * The nanosecond key is the millisecond value scaled by 1e6, for every pair,
   * so ordering entries by key is ordering them by time.
   */
  lemma NanosAgreeWithMillis(t: HrTime)
    ensures ToNanos(t) as real == ToMillis(t) * 1_000_000.0
  {
  }

  /** On normalised pairs the key orders times lexicographically. */
  lemma NanosOrderIsLexicographic(a: HrTime, b: HrTime)
    requires Normalised(a) && Normalised(b)
    ensures ToNanos(a) < ToNanos(b) <==> a.seconds < b.seconds || (a.seconds == b.seconds && a.nanos < b.nanos)
    ensures ToNanos(a) == ToNanos(b) <==> a == b
  {
    if a.seconds < b.seconds {
      assert ToNanos(a) < (a.seconds + 1) * NanosPerSecond <= ToNanos(b);
    } else if a.seconds > b.seconds {
      assert ToNanos(b) < (b.seconds + 1) * NanosPerSecond <= ToNanos(a);
    }
  }
}
