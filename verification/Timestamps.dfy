/** Conversions between ticks of a clock and nanoseconds (recorder/format_mpegts.go, playback/segment_fmp4.go). */
module Timestamps {

  const SECOND := 1_000_000_000

  /** Go's integer division and remainder, which truncate towards zero. */
  function Quo(a: int, b: int): int
    requires b > 0
  {
    if a >= 0 then a / b else -((-a) / b)
  }

  function Rem(a: int, b: int): int
    requires b > 0
  {
    a - Quo(a, b) * b
  }

  /** `multiplyAndDivide` and `multiplyAndDivide2` on numbers that do not overflow. */
  function MultiplyAndDivide(v: int, m: int, d: int): int
    requires d > 0
  {
    Quo(v, d) * m + Quo(Rem(v, d) * m, d)
  }

  lemma TimesMonotone(a: int, b: int, c: nat)
    requires a <= b
    ensures a * c <= b * c
  {
  }

  /** A quotient is sandwiched by its products, and nothing else is. */
  lemma QuotientBounds(a: nat, d: int)
    requires d > 0
    ensures (a / d) * d <= a < (a / d) * d + d
  {
  }

  lemma QuotientUnique(a: nat, d: int, q: int)
    requires d > 0 && q * d <= a < q * d + d
    ensures a / d == q
  {
    QuotientBounds(a, d);
    if a / d < q { TimesMonotone(a / d + 1, q, d); }
    if q < a / d { TimesMonotone(q + 1, a / d, d); }
  }

  lemma DivideSum(k: nat, x: nat, d: int)
    requires d > 0
    ensures k * d >= 0 && (k * d + x) / d == k + x / d
  {
    TimesMonotone(0, k, d);
    QuotientBounds(x, d);
    QuotientUnique(k * d + x, d, k + x / d);
  }

  lemma MultiplyAndDivideNat(v: nat, m: nat, d: int)
    requires d > 0
    ensures v * m >= 0 && (v % d) * m >= 0
    ensures (v / d) * m + (v % d) * m / d == (v * m) / d
  {
    var q, r := v / d, v % d;
    TimesMonotone(0, q, m);
    TimesMonotone(0, r, m);
    TimesMonotone(0, v, m);
    assert v * m == (q * d + r) * m == (q * m) * d + r * m;
    DivideSum(q * m, r * m, d);
  }

  lemma NegativeQuotient(w: int, d: int)
    requires w >= 0 && d > 0
    ensures Quo(-w, d) == -(w / d) && Rem(-w, d) == -(w % d)
  {
    NegativeProduct(w / d, d);
  }

  lemma NegativeProduct(a: int, b: int)
    ensures (-a) * b == -(a * b)
  {
  }

  /** On a negative number every part of the computation is the negative of its counterpart. */
  lemma NegativeTerms(w: int, m: nat, d: int)
    requires w >= 0 && d > 0
    ensures (w % d) * m >= 0
    ensures Quo(-w, d) * m == -((w / d) * m)
    ensures Rem(-w, d) * m == -((w % d) * m)
    ensures Quo(Rem(-w, d) * m, d) == -((w % d) * m / d)
  {
    var q, r := w / d, w % d;
    NegativeQuotient(w, d);
    TimesMonotone(0, r, m);
    NegativeProduct(q, m);
    NegativeProduct(r, m);
    NegativeQuotient(r * m, d);
  }

  lemma MultiplyAndDivideNegative(w: int, m: nat, d: int)
    requires w >= 0 && d > 0
    ensures MultiplyAndDivide(-w, m, d) == Quo(-(w * m), d)
  {
    MultiplyAndDivideNat(w, m, d);
    NegativeTerms(w, m, d);
    TimesMonotone(0, w, m);
    NegativeQuotient(w * m, d);
  }

  /** Dividing first and carrying the remainder gives the truncated quotient of the whole product. */
  lemma MultiplyAndDivideExact(v: int, m: nat, d: int)
    requires d > 0
    ensures MultiplyAndDivide(v, m, d) == Quo(v * m, d)
  {
    if v >= 0 {
      MultiplyAndDivideNat(v, m, d);
      assert Quo(v, d) == v / d && Rem(v, d) == v % d;
    } else {
      MultiplyAndDivideNegative(-v, m, d);
      NegativeProduct(-v, m);
    }
  }

  // 64-bit arithmetic

  const TWO_63 := 0x8000_0000_0000_0000

  const TWO_64 := 0x1_0000_0000_0000_0000

  predicate Int64(x: int) {
    -TWO_63 <= x < TWO_63
  }

  function Wrap(x: int): (r: int)
    ensures Int64(r)
    ensures Int64(x) ==> r == x
  {
    (x + TWO_63) % TWO_64 - TWO_63
  }

  /** `multiplyAndDivide` as the machine computes it: every product and sum is reduced to 64 bits. */
  function MultiplyAndDivide64(v: int, m: int, d: int): int
    requires d > 0
  {
    Wrap(Wrap(Quo(v, d) * m) + Quo(Wrap(Rem(v, d) * m), d))
  }

  lemma ProductBound(a: nat, b: nat)
    requires a <= SECOND && b <= SECOND
    ensures 0 <= a * b <= SECOND * SECOND
  {
    TimesMonotone(0, a, b);
    TimesMonotone(a, SECOND, b);
  }

  lemma TermsOrdered(w: int, m: nat, d: int)
    requires w >= 0 && 0 < d <= SECOND && m <= SECOND
    ensures 0 <= (w % d) * m <= SECOND * SECOND
    ensures 0 <= (w / d) * m <= (w / d) * m + (w % d) * m / d
  {
    TimesMonotone(0, w / d, m);
    ProductBound(w % d, m);
  }

  /** The two terms of the sum have the same sign, so neither exceeds it. */
  lemma TermsFit(v: int, m: nat, d: int)
    requires 0 < d <= SECOND && m <= SECOND
    requires Int64(MultiplyAndDivide(v, m, d))
    ensures Int64(Quo(v, d) * m) && Int64(Rem(v, d) * m)
  {
    if v >= 0 {
      PositiveTermsFit(v, m, d);
    } else {
      NegativeTermsFit(-v, m, d);
    }
  }

  lemma PositiveTermsFit(w: int, m: nat, d: int)
    requires w >= 0 && 0 < d <= SECOND && m <= SECOND
    requires Int64(MultiplyAndDivide(w, m, d))
    ensures Int64(Quo(w, d) * m) && Int64(Rem(w, d) * m)
  {
    TermsOrdered(w, m, d);
    QuotientAndRemainder(w, d);
  }

  lemma QuotientAndRemainder(w: int, d: int)
    requires w >= 0 && d > 0
    ensures Quo(w, d) == w / d && Rem(w, d) == w % d
  {
  }

  lemma NegativeTermsFit(w: int, m: nat, d: int)
    requires w >= 0 && 0 < d <= SECOND && m <= SECOND
    requires Int64(MultiplyAndDivide(-w, m, d))
    ensures Int64(Quo(-w, d) * m) && Int64(Rem(-w, d) * m)
  {
    TermsOrdered(w, m, d);
    NegativeTerms(w, m, d);
  }

  /**
   * That is why the code divides first: whenever the true result fits into 64 bits, no intermediate value overflows,
   * although the product `v * m` may.
   */
  lemma NoOverflow(v: int, m: nat, d: int)
    requires 0 < d <= SECOND && m <= SECOND
    requires Int64(Quo(v * m, d))
    ensures MultiplyAndDivide64(v, m, d) == Quo(v * m, d)
  {
    MultiplyAndDivideExact(v, m, d);
    TermsFit(v, m, d);
  }

  // Ticks and nanoseconds

  /** `timestampToDuration`: ticks to nanoseconds. */
  function ToDuration(t: int, clockRate: int): int
    requires clockRate > 0
  {
    MultiplyAndDivide(t, SECOND, clockRate)
  }

  /** Nanoseconds to ticks. */
  function ToTicks(d: int, clockRate: int): int
  {
    MultiplyAndDivide(d, clockRate, SECOND)
  }

  /** What the conversion of a timestamp to nanoseconds cuts off, in parts of a nanosecond. */
  function Cut(t: int, clockRate: int): int
    requires clockRate > 0
  {
    Rem(t * SECOND, clockRate)
  }

  lemma RemainderBounds(a: int, d: int)
    requires d > 0
    ensures a == Quo(a, d) * d + Rem(a, d) && -d < Rem(a, d) < d
    ensures a >= 0 ==> Quo(a, d) >= 0 && Rem(a, d) >= 0
    ensures a <= 0 ==> Quo(a, d) <= 0 && Rem(a, d) <= 0
  {
    if a >= 0 {
      QuotientBounds(a, d);
    } else {
      NegativeQuotient(-a, d);
    }
  }

  /** A tick is converted to the nearest nanosecond that is not farther from zero. */
  lemma ToDurationBounds(t: int, rate: int)
    requires rate > 0
    ensures var n := ToDuration(t, rate);
      && t * SECOND == n * rate + Cut(t, rate)
      && (t >= 0 ==> n >= 0 && 0 <= Cut(t, rate) < rate)
      && (t <= 0 ==> n <= 0 && -rate < Cut(t, rate) <= 0)
  {
    MultiplyAndDivideExact(t, SECOND, rate);
    RemainderBounds(t * SECOND, rate);
  }

  lemma LaterIsLater(a: int, b: int, rate: int)
    requires 0 < rate <= SECOND && a < b
    ensures ToDuration(a, rate) < ToDuration(b, rate)
  {
    ToDurationBounds(a, rate);
    ToDurationBounds(b, rate);
    var m, n := ToDuration(a, rate), ToDuration(b, rate);
    if m >= n {
      TimesMonotone(n, m, rate);
    }
  }

  /** No two timestamps are converted to the same instant, and their order is kept. */
  lemma ToDurationMonotone(a: int, b: int, rate: int)
    requires 0 < rate <= SECOND
    ensures ToDuration(a, rate) <= ToDuration(b, rate) <==> a <= b
  {
    if a < b {
      LaterIsLater(a, b, rate);
    } else if b < a {
      LaterIsLater(b, a, rate);
    }
  }

  /** The ticks that an offset loses on its way through nanoseconds and back. */
  function Lost(from: int, to: int, rate: int): nat
    requires rate > 0
  {
    var difference := Cut(to, rate) - Cut(from, rate);
    if difference <= 0 then 0 else if difference <= SECOND then 1 else 2
  }

  /**
   * The trip of a tick offset through nanoseconds and back: both ends are truncated to nanoseconds before they are
   * subtracted, and the difference is truncated to ticks. What is lost depends on what the two truncations cut off.
   */
  lemma RoundTripLoss(from: int, to: int, rate: int)
    requires 0 < rate <= SECOND && from <= to
    ensures ToTicks(ToDuration(to, rate) - ToDuration(from, rate), rate) == to - from - Lost(from, to, rate) >= 0
  {
    TripBounds(from, to, rate);
    var ticks := (ToDuration(to, rate) - ToDuration(from, rate)) * rate;
    MultiplyAndDivideExact(ToDuration(to, rate) - ToDuration(from, rate), rate, SECOND);
    QuotientUnique(ticks, SECOND, to - from - Lost(from, to, rate));
  }

  lemma TripBounds(from: int, to: int, rate: int)
    requires 0 < rate <= SECOND && from <= to
    ensures var difference := Cut(to, rate) - Cut(from, rate);
      && -rate < difference < 2 * rate
      && 0 <= (ToDuration(to, rate) - ToDuration(from, rate)) * rate == (to - from) * SECOND - difference
  {
    ToDurationBounds(from, rate);
    ToDurationBounds(to, rate);
    ToDurationMonotone(from, to, rate);
    var m, n := ToDuration(from, rate), ToDuration(to, rate);
    TimesMonotone(0, n - m, rate);
    Distribute(n, m, rate);
  }

  lemma Distribute(a: int, b: int, c: int)
    ensures (a - b) * c == a * c - b * c
  {
  }

  /** The offset comes back exactly when its end loses no more than its start; otherwise one tick short, or two. */
  lemma RoundTripIsExactWhen(from: int, to: int, rate: int)
    requires 0 < rate <= SECOND && from <= to
    ensures var offset := ToTicks(ToDuration(to, rate) - ToDuration(from, rate), rate);
      && (offset == to - from <==> Cut(to, rate) <= Cut(from, rate))
      && to - from - 2 <= offset <= to - from
      && (from >= 0 || to <= 0 || 2 * rate <= SECOND ==> offset >= to - from - 1)
  {
    RoundTripLoss(from, to, rate);
    ToDurationBounds(from, rate);
    ToDurationBounds(to, rate);
  }

  // Offsets between tracks with different clocks

  /** An offset between timestamps of two clocks, in ticks of the second clock, times the rate of the first one. */
  function Across(from: int, rateFrom: int, to: int, rateTo: int): int {
    to * rateFrom - from * rateTo
  }

  lemma TimesExpanded(a: int, b: int, c: int, d: int)
    ensures (a * b + c) * d == (a * d) * b + c * d
  {
  }

  lemma TimesCommute(a: int, b: int, c: int)
    ensures (a * b) * c == (a * c) * b
  {
  }

  lemma AcrossInNanoseconds(from: int, rateFrom: int, to: int, rateTo: int)
    requires 0 < rateFrom && 0 < rateTo
    ensures var n := ToDuration(to, rateTo) - ToDuration(from, rateFrom);
      Across(from, rateFrom, to, rateTo) * SECOND ==
      (n * rateTo) * rateFrom + Cut(to, rateTo) * rateFrom - Cut(from, rateFrom) * rateTo
  {
    var b, a := ToDuration(from, rateFrom), ToDuration(to, rateTo);
    ToDurationBounds(from, rateFrom);
    ToDurationBounds(to, rateTo);
    Distribute(to * rateFrom, from * rateTo, SECOND);
    TimesCommute(to, rateFrom, SECOND);
    TimesCommute(from, rateTo, SECOND);
    TimesExpanded(a, rateTo, Cut(to, rateTo), rateFrom);
    TimesExpanded(b, rateFrom, Cut(from, rateFrom), rateTo);
    Distribute(a, b, rateTo);
    Distribute(a * rateTo, b * rateTo, rateFrom);
    TimesCommute(a, rateTo, rateFrom);
    TimesCommute(b, rateTo, rateFrom);
  }

  /** What the truncations cut off, in the same unit. */
  lemma CutsAcross(from: int, rateFrom: int, to: int, rateTo: int)
    requires 0 < rateFrom && 0 < rateTo <= SECOND
    ensures var a, b, unit := Cut(to, rateTo) * rateFrom, Cut(from, rateFrom) * rateTo, SECOND * rateFrom;
      -unit < a < unit && -unit < b < unit && (to >= 0 ==> a >= 0) && (from >= 0 ==> b >= 0)
  {
    ToDurationBounds(from, rateFrom);
    ToDurationBounds(to, rateTo);
    var product, unit := rateTo * rateFrom, SECOND * rateFrom;
    TimesMonotone(rateTo, SECOND, rateFrom);
    assert 0 < product <= unit;
    SmallTimes(Cut(to, rateTo), rateTo, rateFrom);
    SmallTimes(Cut(from, rateFrom), rateFrom, rateTo);
    Commute(rateFrom, rateTo);
  }

  lemma Commute(a: int, b: int)
    ensures a * b == b * a
  {
  }

  lemma SmallTimes(x: int, bound: int, c: int)
    requires -bound < x < bound && c > 0
    ensures -(bound * c) < x * c < bound * c
    ensures x >= 0 ==> x * c >= 0
  {
    TimesMonotone(x + 1, bound, c);
    TimesMonotone(-bound + 1, x, c);
    NegativeProduct(bound, c);
    if x >= 0 {
      TimesMonotone(0, x, c);
    }
  }

  lemma TicksOf(n: nat, rate: nat)
    ensures var base := ToTicks(n, rate); base >= 0 && base * SECOND <= n * rate < (base + 1) * SECOND
  {
    MultiplyAndDivideExact(n, rate, SECOND);
    TimesMonotone(0, n, rate);
    QuotientBounds(n * rate, SECOND);
  }

  lemma LessTimes(a: int, b: int, c: int)
    requires c > 0 && a * c < b * c
    ensures a < b
  {
    if a >= b {
      TimesMonotone(b, a, c);
    }
  }

  /**
   * An offset between the timestamps of two tracks, sent through nanoseconds, comes out less than two ticks too early
   * and less than one too late, if neither is negative; otherwise less than three and less than two.
   */
  lemma OffsetAcrossIsNear(from: int, rateFrom: int, to: int, rateTo: int)
    requires 0 < rateFrom && 0 < rateTo <= SECOND && ToDuration(from, rateFrom) <= ToDuration(to, rateTo)
    ensures
      var base := ToTicks(ToDuration(to, rateTo) - ToDuration(from, rateFrom), rateTo);
      var exact := Across(from, rateFrom, to, rateTo);
      && base >= 0
      && (base - 2) * rateFrom < exact < (base + 3) * rateFrom
      && (from >= 0 && to >= 0 ==> (base - 1) * rateFrom < exact < (base + 2) * rateFrom)
  {
    var n := ToDuration(to, rateTo) - ToDuration(from, rateFrom);
    var base, exact := ToTicks(n, rateTo), Across(from, rateFrom, to, rateTo);
    AcrossInNanoseconds(from, rateFrom, to, rateTo);
    CutsAcross(from, rateFrom, to, rateTo);
    TicksOf(n, rateTo);
    var cuts := Cut(to, rateTo) * rateFrom - Cut(from, rateFrom) * rateTo;
    NearMultiple(n * rateTo, base, rateFrom, exact, cuts);
  }

  lemma NearMultiple(ticks: int, base: int, rate: int, exact: int, cuts: int)
    requires rate > 0 && base * SECOND <= ticks < (base + 1) * SECOND
    requires exact * SECOND == ticks * rate + cuts && -2 * (SECOND * rate) < cuts < 2 * (SECOND * rate)
    ensures (base - 2) * rate < exact < (base + 3) * rate
    ensures cuts > -(SECOND * rate) ==> (base - 1) * rate < exact
    ensures cuts < SECOND * rate ==> exact < (base + 2) * rate
  {
    var unit := SECOND * rate;
    TimesMonotone(base * SECOND, ticks, rate);
    TimesMonotone(ticks + 1, (base + 1) * SECOND, rate);
    Multiples(base, rate);
    LessTimes((base - 2) * rate, exact, SECOND);
    LessTimes(exact, (base + 3) * rate, SECOND);
    if cuts > -unit {
      LessTimes((base - 1) * rate, exact, SECOND);
    }
    if cuts < unit {
      LessTimes(exact, (base + 2) * rate, SECOND);
    }
  }

  lemma Multiples(base: int, rate: int)
    ensures var unit := SECOND * rate;
      && (base * SECOND) * rate == base * unit && ((base + 1) * SECOND) * rate == base * unit + unit
      && ((base - 2) * rate) * SECOND == base * unit - 2 * unit
      && ((base - 1) * rate) * SECOND == base * unit - unit
      && ((base + 2) * rate) * SECOND == base * unit + 2 * unit
      && ((base + 3) * rate) * SECOND == base * unit + 3 * unit
  {
    var p := base * rate;
    assert (base - 2) * rate == p - 2 * rate && (base - 1) * rate == p - rate;
    assert (base + 2) * rate == p + 2 * rate && (base + 3) * rate == p + 3 * rate;
    assert base * (SECOND * rate) == SECOND * p;
  }

  /**
   * All outcomes occur. With the usual clock of 90000 ticks a second, the first tick after 0 is lost and the ninth is
   * not; with a clock of more than half a tick per nanosecond, an offset across 0 can lose two.
   */
  lemma RoundTripCanLoseATick()
    ensures ToTicks(ToDuration(1, 90000) - ToDuration(0, 90000), 90000) == 0
    ensures ToTicks(ToDuration(9, 90000) - ToDuration(0, 90000), 90000) == 9
    ensures ToTicks(ToDuration(2, 700_000_000) - ToDuration(-2, 700_000_000), 700_000_000) == 2
  {
    FirstTickIsLost();
    NinthTickIsKept();
    TwoTicksAreLost();
  }

  lemma DurationIs(t: nat, rate: int, duration: int)
    requires rate > 0 && duration * rate <= t * SECOND < duration * rate + rate
    ensures ToDuration(t, rate) == duration
  {
    MultiplyAndDivideExact(t, SECOND, rate);
    QuotientUnique(t * SECOND, rate, duration);
  }

  lemma TicksAre(d: nat, rate: nat, ticks: int)
    requires ticks * SECOND <= d * rate < ticks * SECOND + SECOND && d * rate >= 0
    ensures ToTicks(d, rate) == ticks
  {
    MultiplyAndDivideExact(d, rate, SECOND);
    QuotientUnique(d * rate, SECOND, ticks);
  }

  /** A trip, with the results of the conversions given. */
  lemma TripIs(from: nat, to: nat, rate: int, start: nat, end: nat, ticks: int)
    requires rate > 0 && start <= end
    requires start * rate <= from * SECOND < start * rate + rate
    requires end * rate <= to * SECOND < end * rate + rate
    requires 0 <= ticks * SECOND <= (end - start) * rate < ticks * SECOND + SECOND
    ensures ToTicks(ToDuration(to, rate) - ToDuration(from, rate), rate) == ticks
  {
    DurationIs(from, rate, start);
    DurationIs(to, rate, end);
    TicksAre(end - start, rate, ticks);
  }

  lemma FirstTickIsLost()
    ensures ToTicks(ToDuration(1, 90000) - ToDuration(0, 90000), 90000) == 0
  {
    TripIs(0, 1, 90000, 0, 11111, 0);
  }

  lemma NinthTickIsKept()
    ensures ToTicks(ToDuration(9, 90000) - ToDuration(0, 90000), 90000) == 9
  {
    TripIs(0, 9, 90000, 0, 100000, 9);
  }

  /** A trip from a timestamp to its opposite. */
  lemma TripAcrossIs(t: int, rate: int, duration: nat, ticks: int)
    requires t >= 0 && rate > 0
    requires duration * rate <= t * SECOND < duration * rate + rate
    requires 0 <= ticks * SECOND <= (duration + duration) * rate < ticks * SECOND + SECOND
    ensures ToTicks(ToDuration(t, rate) - ToDuration(-t, rate), rate) == ticks
  {
    DurationIs(t, rate, duration);
    NegativeTerms(t, SECOND, rate);
    QuotientAndRemainder(t, rate);
    TicksAre(duration + duration, rate, ticks);
  }

  lemma TwoTicksAreLost()
    ensures ToTicks(ToDuration(2, 700_000_000) - ToDuration(-2, 700_000_000), 700_000_000) == 2
  {
    TripAcrossIs(2, 700_000_000, 2, 2);
  }
}
