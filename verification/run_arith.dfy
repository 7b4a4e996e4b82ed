/**
 The integer arithmetic of the run display: the time fields' total in
 seconds, the rotation and time percentages, and the remaining time split into
 hours, minutes and seconds. C++ `/` and `%` on int truncate toward zero, which
 TruncDiv and TruncMod write out.
 */
module RunArith {

  /** C++ `a / b` for a positive divisor: the quotient truncated toward zero. */
  function TruncDiv(a: int, b: int): (q: int)
    requires b > 0
    ensures 0 <= a ==> 0 <= a - q * b < b && q >= 0
    ensures a < 0 ==> -b < a - q * b <= 0 && q <= 0
  {
    if a >= 0 then a / b else -((-a) / b)
  }

  /** C++ `a % b` for a positive divisor: the remainder takes the sign of `a`. */
  function TruncMod(a: int, b: int): (r: int)
    requires b > 0
    ensures 0 <= a ==> 0 <= r < b
    ensures a < 0 ==> -b < r <= 0
    ensures a == TruncDiv(a, b) * b + r
  {
    a - TruncDiv(a, b) * b
  }

  datatype Hms = Hms(hours: int, minutes: int, seconds: int)

  /** getTotalSeconds: the hours, minutes and seconds fields in seconds. */
  function TotalSeconds(h: int, m: int, s: int): (n: int)
    ensures 0 <= h && 0 <= m < 60 && 0 <= s < 60 ==> n / 3600 == h && n % 3600 / 60 == m && n % 60 == s
  {
    h * 3600 + m * 60 + s
  }

  function HmsSeconds(t: Hms): int
  {
    TotalSeconds(t.hours, t.minutes, t.seconds)
  }

  /** A normalised clock reading: minutes and seconds below sixty. */
  predicate IsNormalHms(t: Hms) {
    t.hours >= 0 && 0 <= t.minutes < 60 && 0 <= t.seconds < 60
  }

  /** The hours, minutes and seconds shown for a number of seconds:
      n / 3600, (n % 3600) / 60 and n % 60 in C++ arithmetic. */
  function SplitHms(n: int): (t: Hms)
    ensures HmsSeconds(t) == n
    ensures n >= 0 ==> IsNormalHms(t)
  {
    var h := TruncDiv(n, 3600);
    var r := TruncMod(n, 3600);
    var m := TruncDiv(r, 60);
    var s := TruncMod(n, 60);
    SplitHmsSum(n, h, r, m, s);
    Hms(h, m, s)
  }

  lemma SplitHmsSum(n: int, h: int, r: int, m: int, s: int)
    requires h == TruncDiv(n, 3600) && r == TruncMod(n, 3600)
    requires m == TruncDiv(r, 60) && s == TruncMod(n, 60)
    ensures h * 3600 + m * 60 + s == n
    ensures n >= 0 ==> h >= 0 && 0 <= m < 60 && 0 <= s < 60
  {
    var s' := TruncMod(r, 60);
    assert r == m * 60 + s';
    assert n == h * 3600 + r;
    // n and r differ by a multiple of 60 and share a sign, so their truncated
    // remainders modulo 60 agree.
    assert n == (h * 60 + m) * 60 + s';
    var k := h * 60 + m;
    if n >= 0 {
      assert 0 <= s' < 60;
      assert TruncDiv(n, 60) == k by { UniqueQuotient(n, 60, k, s'); }
    } else {
      assert -60 < s' <= 0;
      assert TruncDiv(n, 60) == k by { UniqueQuotient(n, 60, k, s'); }
    }
  }

  /** Multiplying by a positive number keeps the order. */
  lemma MulMonotone(x: int, y: int, b: int)
    requires x <= y && b > 0
    ensures x * b <= y * b
  {
    assert y * b == x * b + (y - x) * b;
  }

  /** Truncated division is determined by the division identity and the bound on the remainder. */
  lemma UniqueQuotient(a: int, b: int, q: int, r: int)
    requires b > 0 && a == q * b + r
    requires 0 <= a ==> 0 <= r < b
    requires a < 0 ==> -b < r <= 0
    ensures TruncDiv(a, b) == q
  {
    var q' := TruncDiv(a, b);
    var r' := a - q' * b;
    assert -b < r' - r < b;
    var d := q - q';
    assert d * b == q * b - q' * b;
    assert d * b == r' - r;
    if d >= 1 {
      MulMonotone(1, d, b);
    } else if d <= -1 {
      MulMonotone(d, -1, b);
    }
  }

  /** Seconds written as a clock reading read back as the same clock reading. */
  lemma {:induction false} SplitOfTotal(t: Hms)
    requires IsNormalHms(t)
    ensures SplitHms(HmsSeconds(t)) == t
  {
    var n := HmsSeconds(t);
    UniqueQuotient(n, 3600, t.hours, t.minutes * 60 + t.seconds);
    var r := TruncMod(n, 3600);
    assert r == t.minutes * 60 + t.seconds;
    UniqueQuotient(r, 60, t.minutes, t.seconds);
    UniqueQuotient(n, 60, t.hours * 60 + t.minutes, t.seconds);
  }

  /** The time fields offer hours 0..23 and minutes and seconds 0..59, so a
      run lasts less than a day, and the display splits it back into the fields. */
  lemma TimeFieldsRange(h: int, m: int, s: int)
    requires 0 <= h < 24 && 0 <= m < 60 && 0 <= s < 60
    ensures 0 <= TotalSeconds(h, m, s) < 86400
    ensures SplitHms(TotalSeconds(h, m, s)) == Hms(h, m, s)
  {
    SplitOfTotal(Hms(h, m, s));
  }

  /** updateRotationProgress: current * 100 / target, or 0 without a target. */
  function RotationProgress(current: int, target: int): (p: int)
    ensures target <= 0 ==> p == 0
    ensures target > 0 && current >= 0 ==> p * target <= current * 100 < (p + 1) * target
    ensures target > 0 && current < 0 ==> (p - 1) * target < current * 100 <= p * target
  {
    if target > 0 then TruncDiv(current * 100, target) else 0
  }

  /** `part * 100 / whole` for a part within the whole is a percentage: the
      largest p with p * whole <= part * 100. */
  lemma Percentage(part: int, whole: int)
    requires 0 <= part <= whole && whole > 0
    ensures 0 <= TruncDiv(part * 100, whole) <= 100
    ensures part == whole ==> TruncDiv(part * 100, whole) == 100
  {
    var p := TruncDiv(part * 100, whole);
    assert p * whole <= part * 100 <= whole * 100;
    if p > 100 {
      MulMonotone(101, p, whole);
    }
    if part == whole {
      UniqueQuotient(part * 100, whole, 100, 0);
    }
  }

  /** Progress through a rotation run is a percentage while the count is in
      range, and exactly 100 when the target is reached. */
  lemma RotationProgressBounds(current: int, target: int)
    requires 0 <= current <= target && target > 0
    ensures 0 <= RotationProgress(current, target) <= 100
    ensures current == target ==> RotationProgress(current, target) == 100
  {
    Percentage(current, target);
  }

  /** What updateTimeProgressDisplay shows: the elapsed counter after its
      clamp (which it writes back), the percentage, and the remaining and
      elapsed times as clock readings. */
  datatype TimeView = TimeView(elapsed: int, progress: int, remaining: Hms, elapsedClock: Hms)

  /** The clamp applied to the elapsed counter: first to at least 0, then to at most total. */
  function ClampElapsed(total: int, elapsed: int): (e: int)
    ensures total >= 0 ==> 0 <= e <= total
    ensures 0 <= elapsed <= total ==> e == elapsed
    ensures total >= 0 && elapsed < 0 ==> e == 0
    ensures total >= 0 && elapsed > total ==> e == total
  {
    var e1 := if elapsed < 0 then 0 else elapsed;
    if e1 > total then total else e1
  }

  function TimeDisplay(total: int, elapsed: int): (v: TimeView)
    ensures v.elapsed == ClampElapsed(total, elapsed)
    ensures 0 <= v.progress <= 100
    ensures total >= 0 ==> v.elapsed + HmsSeconds(v.remaining) == total
    ensures total >= 0 ==> IsNormalHms(v.remaining) && IsNormalHms(v.elapsedClock)
    ensures HmsSeconds(v.elapsedClock) == v.elapsed
    ensures total > 0 ==> v.progress * total <= v.elapsed * 100 < (v.progress + 1) * total
    ensures total <= 0 ==> v.progress == 0
  {
    var e := ClampElapsed(total, elapsed);
    var clocks := Clocks(total, e);
    TimeView(e, TimeProgress(total, e), clocks.0, clocks.1)
  }

  /** The remaining time, qMax(0, total - elapsed), and the elapsed time as clock readings. */
  function Clocks(total: int, e: int): (c: (Hms, Hms))
    requires total >= 0 ==> 0 <= e <= total
    ensures total >= 0 ==> e + HmsSeconds(c.0) == total
    ensures total >= 0 ==> IsNormalHms(c.0) && IsNormalHms(c.1)
    ensures HmsSeconds(c.1) == e
  {
    (SplitHms(Max(0, total - e)), SplitHms(e))
  }

  /** The time bar's value: qBound(0, elapsed * 100 / total, 100), or 0 without a total. */
  function TimeProgress(total: int, e: int): (p: int)
    requires total > 0 ==> 0 <= e <= total
    ensures 0 <= p <= 100
    ensures total > 0 ==> p * total <= e * 100 < (p + 1) * total
    ensures total <= 0 ==> p == 0
  {
    if total > 0 then
      Percentage(e, total);
      Bound(0, TruncDiv(e * 100, total), 100)
    else 0
  }

  /** qBound(lo, x, hi). */
  function Bound(lo: int, x: int, hi: int): int
    requires lo <= hi
  {
    if x < lo then lo else if x > hi then hi else x
  }

  /** qMax. */
  function Max(a: int, b: int): int
  {
    if a < b then b else a
  }
}
