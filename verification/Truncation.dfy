/** Rounding of times to milliseconds and to multiples of a tick, and the arithmetic of bucket slots. */
module Truncation {

  const MILLISECOND := 1_000_000

  /** timeToMs, from nanoseconds: Go's division rounds toward zero. */
  function TimeToMs(t: int): int {
    if t >= 0 then t / MILLISECOND else -((-t) / MILLISECOND)
  }

  function MsToTime(t: int): int {
    t * MILLISECOND
  }

  /** A time in milliseconds is the time in nanoseconds over a million, rounded toward zero. */
  lemma MsOfTime(t: int)
    ensures t >= 0 ==> TimeToMs(t) * 1_000_000 <= t < (TimeToMs(t) + 1) * 1_000_000
    ensures TimeToMs(-t) == -TimeToMs(t)
    ensures MsToTime(TimeToMs(t)) == TimeToMs(t) * 1_000_000 && TimeToMs(MsToTime(t)) == t
  {
  }

  /** Go's `%` for a positive modulus: the remainder takes the sign of the dividend. */
  function Remainder(x: int, m: int): int
    requires m > 0
  {
    if x >= 0 then x % m else -((-x) % m)
  }

  function Truncate(x: int, m: int): int {
    if m <= 0 then x else x - Remainder(x, m)
  }

  predicate Aligned(x: int, m: int) {
    m > 0 && x % m == 0
  }

  /** The index of the bucket that a wheel of `size` buckets uses for time `x`. */
  function Slot(x: int, m: int, size: int): int
    requires m > 0 && size > 0
  {
    (x / m) % size
  }

  /** For a time that is not negative, Truncate(x, m) is the one multiple of m in (x - m, x]. */
  lemma TruncateMeans(x: int, m: int, t: int)
    requires m > 0 && x >= 0
    ensures t == Truncate(x, m) <==> Aligned(t, m) && t <= x < t + m
  {
    var q := Truncate(x, m);
    assert x == m * (x / m) + x % m;
    assert q == m * (x / m);
    MultipleIsAligned(x / m, m);
    if Aligned(t, m) && t <= x < t + m {
      if t < q {
        AlignedGap(t, q, m);
      } else if q < t {
        AlignedGap(q, t, m);
      }
    }
  }

  /** Truncation is symmetric about zero, and a tick of 0 or less truncates nothing. */
  lemma TruncateOfNegative(x: int, m: int)
    ensures Truncate(-x, m) == -Truncate(x, m)
    ensures m <= 0 ==> Truncate(x, m) == x
  {
  }

  /** A multiple of m strictly between -m and m is 0; one that is positive is at least m. */
  lemma SmallMultiple(m: int, k: int)
    requires m > 0
    ensures m * k < m ==> k <= 0
    ensures -m < m * k ==> 0 <= k
  {
    if k >= 1 {
      assert m * k == m + m * (k - 1) && m * (k - 1) >= 0;
    } else if k <= -1 {
      assert m * k == -m - m * (-k - 1) && m * (-k - 1) >= 0;
    }
  }

  lemma MultipleIsAligned(q: int, m: int)
    requires m > 0
    ensures Aligned(m * q, m)
    ensures (m * q) / m == q
  {
    var r, d := (m * q) % m, (m * q) / m;
    assert m * (q - d) == r;
    SmallMultiple(m, q - d);
  }

  lemma AlignedGap(a: int, b: int, m: int)
    requires Aligned(a, m) && Aligned(b, m) && a < b
    ensures a + m <= b
  {
    var p, q := a / m, b / m;
    assert a == m * p && b == m * q;
    Distribute(m, q, p);
    SmallMultiple(m, q - p);
  }

  lemma Distribute(m: int, p: int, q: int)
    ensures m * (p - q) == m * p - m * q
  {
  }

  ghost predicate Divides(m: int, n: int) {
    m > 0 && exists k: int :: k >= 1 && IsProduct(m, k, n)
  }

  predicate IsProduct(m: int, k: int, n: int) {
    n == m * k
  }

  lemma AlignedToFactor(x: int, m: int, k: int)
    requires m > 0 && k > 0 && Aligned(x, m * k)
    ensures Aligned(x, m)
  {
    var q := x / (m * k);
    assert x == (m * k) * q == m * (k * q);
    MultipleIsAligned(k * q, m);
  }

  /** Truncating twice, first finely and then coarsely, is truncating coarsely. */
  lemma TruncateNested(x: int, m: int, k: int)
    requires x >= 0 && m > 0 && k > 0
    ensures m * k > 0
    ensures Truncate(Truncate(x, m), m * k) == Truncate(x, m * k)
    ensures 0 <= Truncate(x, m * k) <= Truncate(x, m) <= x
  {
    assert m * k >= m;
    var fine, coarse := Truncate(x, m), Truncate(x, m * k);
    TruncateMeans(x, m, fine);
    TruncateMeans(x, m * k, coarse);
    TruncateNotNegative(x, m);
    TruncateNotNegative(x, m * k);
    AlignedToFactor(coarse, m, k);
    if fine < coarse {
      AlignedGap(fine, coarse, m);
    }
    TruncateMeans(fine, m * k, coarse);
  }

  lemma TruncateNotNegative(x: int, m: int)
    requires x >= 0 && m > 0
    ensures 0 <= Truncate(x, m)
  {
    assert x == m * (x / m) + x % m;
    assert x / m >= 0;
    assert m * (x / m) >= 0;
  }

  /** Two numbers less than `size` apart that agree modulo `size` are equal. */
  lemma SameResidue(p: int, q: int, size: int)
    requires size > 0 && -size < p - q < size && p % size == q % size
    ensures p == q
  {
    var c, d := p / size, q / size;
    assert p == size * c + p % size && q == size * d + q % size;
    Distribute(size, c, d);
    SmallMultiple(size, c - d);
  }

  lemma SmallFactor(m: int, k: int, size: int)
    requires m > 0 && m * k < m * size
    ensures k < size
  {
    Distribute(m, k, size);
    if k >= size { SmallMultiple(m, size - k); SmallMultiple(m, k - size + 1); Distribute(m, k - size, -1); }
  }

  /** Within one turn of the wheel a slot names one multiple of the tick. */
  lemma SlotNamesOneTime(a: int, b: int, from: int, m: int, size: int)
    requires size > 0 && Aligned(a, m) && Aligned(b, m)
    requires from <= a < from + m * size && from <= b < from + m * size
    requires Slot(a, m, size) == Slot(b, m, size)
    ensures a == b
  {
    var p, q := a / m, b / m;
    assert a == m * p && b == m * q;
    Distribute(m, p, q);
    Distribute(m, q, p);
    SmallFactor(m, p - q, size);
    SmallFactor(m, q - p, size);
    SameResidue(p, q, size);
  }
}
