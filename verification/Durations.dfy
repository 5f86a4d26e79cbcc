/** Points in time, and Go's rounding and truncation of them to multiples of a duration. */
module Durations {
  /** Nanoseconds since Go's zero time. */
  type Time = int

  const SECOND: int := 1_000_000_000

  /** time.Time.Round: to the nearest multiple of d, halves up; unchanged for a non-positive d. */
  function Round(t: Time, d: int): Time {
    if d <= 0 then t
    else if 2 * (t % d) < d then t - t % d
    else t - t % d + d
  }

  /** time.Time.Truncate: down to a multiple of d; unchanged for a non-positive d. */
  function Truncate(t: Time, d: int): Time {
    if d <= 0 then t else t - t % d
  }

  /** Rounding gives the nearest multiple, the later one of two; truncation the last multiple not after. */
  lemma NearestAndLastMultiple(t: Time, d: int)
    requires d > 0
    ensures Round(t, d) % d == 0 && -d <= 2 * (t - Round(t, d)) < d
    ensures Truncate(t, d) % d == 0 && 0 <= t - Truncate(t, d) < d
  {
    var q := t / d;
    assert t == d * q + t % d;
    MultipleIsMultiple(d, q);
    MultipleIsMultiple(d, q + 1);
    assert d * (q + 1) == d * q + d;
  }

  /** A duration that is not positive rounds and truncates nothing. */
  lemma NoRoundingWithoutDuration(t: Time, d: int)
    requires d <= 0
    ensures Round(t, d) == t && Truncate(t, d) == t
  {
  }

  lemma MultipleIsMultiple(d: int, q: int)
    requires d > 0
    ensures (d * q) % d == 0
  {
    var r := (d * q) % d;
    var p := (d * q) / d;
    assert d * q == d * p + r;
    if p < q {
      Multiples(d, p, q);
    } else if q < p {
      Multiples(d, q, p);
    }
  }

  lemma Multiples(d: int, q: int, p: int)
    requires d > 0 && q <= p
    ensures d * q <= d * p
    ensures q < p ==> d * q + d <= d * p
    decreases p - q
  {
    if q == p {
    } else {
      Multiples(d, q + 1, p);
      assert d * (q + 1) == d * q + d;
    }
  }

  /** Later times round and truncate to later multiples. */
  lemma RoundingIsMonotone(t: Time, u: Time, d: int)
    requires t <= u
    ensures Round(t, d) <= Round(u, d) && Truncate(t, d) <= Truncate(u, d)
    ensures d > 0 ==> t / d <= u / d
  {
    if d > 0 {
      var q, p := t / d, u / d;
      assert t == d * q + t % d && u == d * p + u % d;
      if q <= p {
        Multiples(d, q, p);
      } else {
        Multiples(d, p, q);
      }
    }
  }

  /** Different multiples are a whole duration apart. */
  lemma TruncationsAreApart(t: Time, u: Time, d: int)
    requires d > 0 && Truncate(t, d) < Truncate(u, d)
    ensures Truncate(t, d) + d <= Truncate(u, d)
  {
    var q, p := t / d, u / d;
    assert Truncate(t, d) == d * q && Truncate(u, d) == d * p;
    if p <= q {
      Multiples(d, p, q);
    } else {
      Multiples(d, q, p);
    }
  }

  /** A half-open span of length d touches at most two multiples of d: those of its first and its last instant. */
  lemma SpanTouchesTwoMultiples(from: Time, t: Time, d: int)
    requires d > 0 && from <= t < from + d
    ensures Truncate(t, d) == Truncate(from, d) || Truncate(t, d) == Truncate(from + d - 1, d)
  {
    var end := from + d - 1;
    RoundingIsMonotone(from, t, d);
    RoundingIsMonotone(t, end, d);
    if Truncate(from, d) < Truncate(t, d) {
      TruncationsAreApart(from, t, d);
      if Truncate(t, d) < Truncate(end, d) {
        TruncationsAreApart(t, end, d);
      }
    }
  }
}
