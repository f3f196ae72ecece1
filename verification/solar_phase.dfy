/** The solar-phase selector: which of the sixteen wallpaper variants belongs
    to the current instant, given the day's dawn, sunrise, sunset and dusk.

    Instants and durations are whole microseconds, the resolution of Python's
    datetime arithmetic, so the model works on `int`. The event times are
    parameters: computing them is the astronomy library's job. */
module SolarPhase {

  /** `timedelta(days=1)`, the step from today's dawn to the estimate of tomorrow's. */
  const Day: int := 86_400_000_000

  /** The four solar events of one calendar day. */
  datatype SolarDay = SolarDay(dawn: int, sunrise: int, sunset: int, dusk: int)

  /** The order the astronomy library produces on an ordinary day. */
  predicate Ordered(d: SolarDay) {
    d.dawn <= d.sunrise <= d.sunset <= d.dusk
  }

  /** `timedelta / k`: the quotient rounded to the nearest microsecond, a tie
      going to the even neighbour. */
  function DivRound(a: int, k: int): (q: int)
    requires k > 0
    ensures -k <= 2 * (q * k - a) <= k
    ensures 2 * (q * k - a) == k || 2 * (a - q * k) == k ==> q % 2 == 0
  {
    var q, r := a / k, a % k;
    assert q * k + r == a;
    assert (q + 1) * k == q * k + k;
    if 2 * r > k || (2 * r == k && q % 2 == 1) then q + 1 else q
  }

  /** `start + (end - start) / 2`, the way every split point is computed. */
  function Midpoint(start: int, end: int): (m: int)
    ensures -1 <= 2 * m - (start + end) <= 1
  {
    start + DivRound(end - start, 2)
  }

  /** One eighth of the daylight span, rounded as above. */
  function GoldenHour(d: SolarDay): (g: int)
    ensures -4 <= 8 * g - (d.sunset - d.sunrise) <= 4
  {
    DivRound(d.sunset - d.sunrise, 8)
  }

  /** Where the eight midday slices begin: the end of the morning golden
      hour, which lies within daylight. */
  function MiddayStart(d: SolarDay): (s: int)
    ensures d.sunrise <= d.sunset ==> d.sunrise <= s <= d.sunset
  {
    d.sunrise + GoldenHour(d)
  }

  /** The span the eight midday slices share: daylight less both golden
      hours. It ends where the evening golden hour begins and is three
      quarters of daylight to within a microsecond. */
  function MiddayDuration(d: SolarDay): (m: int)
    ensures MiddayStart(d) + m == d.sunset - GoldenHour(d)
    ensures -4 <= 4 * m - 3 * (d.sunset - d.sunrise) <= 4
  {
    (d.sunset - d.sunrise) - 2 * GoldenHour(d)
  }

  /** The bucket for `now` once the midpoint of the night around `now` is
      known; shared by the selector as written and its corrected form. */
  function Classify(d: SolarDay, now: int, nightMidpoint: int): (b: int)
    ensures 1 <= b <= 16
  {
    if d.sunrise <= now < d.sunset then
      if now < d.sunrise + GoldenHour(d) then 3
      else if now >= d.sunset - GoldenHour(d) then 12
      else if MiddayDuration(d) <= 0 then 7
      else
        var slice := 4 + (8 * (now - MiddayStart(d))) / MiddayDuration(d);
        DivMonotone(0, 8 * (now - MiddayStart(d)), MiddayDuration(d));
        if slice < 11 then slice else 11
    else if d.sunset <= now < d.dusk then
      if now < Midpoint(d.sunset, d.dusk) then 13 else 14
    else if d.dawn <= now < d.sunrise then
      if now < Midpoint(d.dawn, d.sunrise) then 1 else 2
    else if now < nightMidpoint then 15
    else 16
  }

  /** The selector as written: the evening night (today's dusk to tomorrow's
      dawn, the latter estimated as today's dawn plus one day) is chosen only
      when `now` is strictly after dusk; otherwise the night is the one from
      yesterday's dusk to today's dawn. */
  function PhaseIndex(d: SolarDay, yesterdayDusk: int, now: int): (b: int)
    ensures 1 <= b <= 16
  {
    Classify(d, now,
      if now > d.dusk then Midpoint(d.dusk, d.dawn + Day)
      else Midpoint(yesterdayDusk, d.dawn))
  }

  /** The selector with the half-open convention applied to the night test as
      well: from dusk on, the evening night is the one that applies. */
  function PhaseIndexHalfOpen(d: SolarDay, yesterdayDusk: int, now: int): (b: int)
    ensures 1 <= b <= 16
  {
    Classify(d, now,
      if now >= d.dusk then Midpoint(d.dusk, d.dawn + Day)
      else Midpoint(yesterdayDusk, d.dawn))
  }

  // ---------------------------------------------------------------------------
  // Arithmetic facts

  /** Split points lie inside their interval, within half a microsecond of
      the exact midpoint. */
  lemma MidpointWithin(start: int, end: int)
    requires start <= end
    ensures start <= Midpoint(start, end) <= end
    ensures -1 <= 2 * Midpoint(start, end) - (start + end) <= 1
  {
  }

  /** The rounded eighth never eats the whole day: the midday span is
      positive for any daylight of at least one microsecond, so the
      bucket-7 guard can never fire. */
  lemma MiddayNonEmpty(d: SolarDay)
    requires d.sunrise < d.sunset
    ensures MiddayDuration(d) > 0
    ensures 0 <= GoldenHour(d) && d.sunrise + GoldenHour(d) < d.sunset - GoldenHour(d)
  {
    var day, g := d.sunset - d.sunrise, GoldenHour(d);
    assert -8 <= 2 * (g * 8 - day) <= 8;
  }

  /** Floor division by a positive span keeps the order of its operands. */
  lemma DivMonotone(a: int, b: int, k: int)
    requires 0 <= a <= b && 0 < k
    ensures a / k <= b / k
  {
    if a / k > b / k {
      assert (a / k) * k >= (b / k + 1) * k by {
        MulMonotone(b / k + 1, a / k, k);
      }
      assert false;
    }
  }

  /** Multiplying by a positive factor keeps the order of its operands. */
  lemma MulMonotone(x: int, y: int, k: int)
    requires x <= y && 0 < k
    ensures x * k <= y * k
  {
    assert y * k - x * k == (y - x) * k;
  }

  /** What floor division by the midday span means: slice `s` covers the
      instants whose offset times eight lies in `[s * span, (s + 1) * span)`. */
  lemma FloorSlice(offset: int, span: int)
    requires 0 <= offset < span
    ensures 0 <= (8 * offset) / span <= 7
    ensures ((8 * offset) / span) * span <= 8 * offset < ((8 * offset) / span + 1) * span
  {
    var q := (8 * offset) / span;
    DivMonotone(0, 8 * offset, span);
    if q > 7 {
      MulMonotone(8, q, span);
      assert false;
    }
  }

  // ---------------------------------------------------------------------------
  // Properties of the selector

  /** Daylight maps to buckets 3..12: 3 exactly in the morning golden hour,
      12 exactly in the evening golden hour, 4..11 in between. */
  lemma DaytimeBuckets(d: SolarDay, yesterdayDusk: int, now: int)
    requires d.sunrise <= now < d.sunset
    ensures 3 <= PhaseIndex(d, yesterdayDusk, now) <= 12
    ensures PhaseIndex(d, yesterdayDusk, now) == 3 <==> now < d.sunrise + GoldenHour(d)
    ensures PhaseIndex(d, yesterdayDusk, now) == 12 <==> now >= d.sunset - GoldenHour(d)
  {
    MiddayNonEmpty(d);
    if MiddayStart(d) <= now < d.sunset - GoldenHour(d) {
      FloorSlice(now - MiddayStart(d), MiddayDuration(d));
    }
  }

  /** Inside midday the bucket is `4 + floor(8 * offset / span)`; the clamp at
      11 never takes effect and bucket `b` covers exactly the `b - 4`-th of
      eight equal slices. */
  lemma MiddaySlices(d: SolarDay, yesterdayDusk: int, now: int)
    requires MiddayStart(d) <= now < d.sunset - GoldenHour(d)
    ensures MiddayDuration(d) > 0
    ensures 4 + (8 * (now - MiddayStart(d))) / MiddayDuration(d) <= 11
    ensures PhaseIndex(d, yesterdayDusk, now) == 4 + (8 * (now - MiddayStart(d))) / MiddayDuration(d)
    ensures var b := PhaseIndex(d, yesterdayDusk, now);
      (b - 4) * MiddayDuration(d) <= 8 * (now - MiddayStart(d)) < (b - 3) * MiddayDuration(d)
  {
    MiddayNonEmpty(d);
    FloorSlice(now - MiddayStart(d), MiddayDuration(d));
  }

  /** Dusk twilight is split at its midpoint into 13 and 14. */
  lemma DuskTwilight(d: SolarDay, yesterdayDusk: int, now: int)
    requires d.sunset <= now < d.dusk
    ensures d.sunset <= Midpoint(d.sunset, d.dusk) <= d.dusk
    ensures PhaseIndex(d, yesterdayDusk, now) == (if now < Midpoint(d.sunset, d.dusk) then 13 else 14)
  {
    MidpointWithin(d.sunset, d.dusk);
  }

  /** Dawn twilight is split at its midpoint into 1 and 2. */
  lemma DawnTwilight(d: SolarDay, yesterdayDusk: int, now: int)
    requires Ordered(d) && d.dawn <= now < d.sunrise
    ensures d.dawn <= Midpoint(d.dawn, d.sunrise) <= d.sunrise
    ensures PhaseIndex(d, yesterdayDusk, now) == (if now < Midpoint(d.dawn, d.sunrise) then 1 else 2)
  {
    MidpointWithin(d.dawn, d.sunrise);
  }

  /** Strictly after dusk the night runs to tomorrow's estimated dawn; 15
      before its midpoint, 16 from it on. */
  lemma NightAfterDusk(d: SolarDay, yesterdayDusk: int, now: int)
    requires Ordered(d) && now > d.dusk
    ensures PhaseIndex(d, yesterdayDusk, now) == (if now < Midpoint(d.dusk, d.dawn + Day) then 15 else 16)
  {
  }

  /** Before dawn, and at the dusk instant itself, the night used is the one
      from yesterday's dusk to today's dawn. */
  lemma NightBeforeDawn(d: SolarDay, yesterdayDusk: int, now: int)
    requires Ordered(d) && (now < d.dawn || now == d.dusk)
    ensures PhaseIndex(d, yesterdayDusk, now) == (if now < Midpoint(yesterdayDusk, d.dawn) then 15 else 16)
  {
  }

  /** One night seen from both calendar days. Between today's dusk and
      tomorrow's dawn, today's events split the night at the midpoint of
      dusk and today's dawn plus one day; tomorrow's events, with today's
      dusk as their yesterday, split it at the midpoint of dusk and
      tomorrow's dawn. When tomorrow's dawn is exactly one day after today's,
      both give the same bucket; otherwise they disagree only between the
      two split points. */
  lemma NightAcrossMidnight(today: SolarDay, tomorrow: SolarDay, yesterdayDusk: int, t: int)
    requires Ordered(today) && Ordered(tomorrow)
    requires today.dusk < t < tomorrow.dawn
    ensures var evening := Midpoint(today.dusk, today.dawn + Day);
      PhaseIndex(today, yesterdayDusk, t) == (if t < evening then 15 else 16)
    ensures var morning := Midpoint(today.dusk, tomorrow.dawn);
      PhaseIndex(tomorrow, today.dusk, t) == (if t < morning then 15 else 16)
    ensures tomorrow.dawn == today.dawn + Day ==>
      PhaseIndex(today, yesterdayDusk, t) == PhaseIndex(tomorrow, today.dusk, t)
    ensures var evening, morning := Midpoint(today.dusk, today.dawn + Day), Midpoint(today.dusk, tomorrow.dawn);
      PhaseIndex(today, yesterdayDusk, t) != PhaseIndex(tomorrow, today.dusk, t) ==>
        (evening <= t < morning || morning <= t < evening)
  {
    NightAfterDusk(today, yesterdayDusk, t);
    NightBeforeDawn(tomorrow, today.dusk, t);
  }

  /** How far the evening split drifts from the true midpoint of the night
      when tomorrow's dawn is not today's dawn plus one day: by at most half
      the difference of the two dawns, plus the rounding of each split. */
  lemma NightSplitDrift(dusk: int, estimatedDawn: int, actualDawn: int)
    ensures var drift := Midpoint(dusk, estimatedDawn) - Midpoint(dusk, actualDawn);
      var gap := estimatedDawn - actualDawn;
      && 2 * drift <= gap + 2 && gap - 2 <= 2 * drift
  {
    var a, b := DivRound(estimatedDawn - dusk, 2), DivRound(actualDawn - dusk, 2);
    assert -2 <= 2 * (a * 2 - (estimatedDawn - dusk)) <= 2;
    assert -2 <= 2 * (b * 2 - (actualDawn - dusk)) <= 2;
  }

  /** Over the lit part of the day, dawn to dusk, the bucket never goes down
      as time advances. */
  lemma DayMonotone(d: SolarDay, yesterdayDusk: int, t1: int, t2: int)
    requires Ordered(d) && d.dawn <= t1 <= t2 < d.dusk
    ensures PhaseIndex(d, yesterdayDusk, t1) <= PhaseIndex(d, yesterdayDusk, t2)
  {
    var b1, b2 := PhaseIndex(d, yesterdayDusk, t1), PhaseIndex(d, yesterdayDusk, t2);
    if d.sunrise <= t1 && t2 < d.sunset {
      DaytimeBuckets(d, yesterdayDusk, t1);
      DaytimeBuckets(d, yesterdayDusk, t2);
      if MiddayStart(d) <= t1 && t2 < d.sunset - GoldenHour(d) {
        MiddaySlices(d, yesterdayDusk, t1);
        MiddaySlices(d, yesterdayDusk, t2);
        DivMonotone(8 * (t1 - MiddayStart(d)), 8 * (t2 - MiddayStart(d)), MiddayDuration(d));
      }
    } else {
      if t1 < d.sunrise { DawnTwilight(d, yesterdayDusk, t1); }
      if t2 < d.sunrise { DawnTwilight(d, yesterdayDusk, t2); }
      if d.sunrise <= t1 < d.sunset { DaytimeBuckets(d, yesterdayDusk, t1); }
      if d.sunrise <= t2 < d.sunset { DaytimeBuckets(d, yesterdayDusk, t2); }
      if d.sunset <= t1 { DuskTwilight(d, yesterdayDusk, t1); }
      if d.sunset <= t2 { DuskTwilight(d, yesterdayDusk, t2); }
    }
  }

  // ---------------------------------------------------------------------------
  // The dusk instant

  /** As written, the instant of dusk is treated as the end of last night:
      yesterday's night midpoint is already past, so the late-night bucket 16
      is chosen where the evening bucket 15 belongs. */
  lemma DuskInstantAsWritten(d: SolarDay, yesterdayDusk: int)
    requires Ordered(d) && yesterdayDusk <= d.dawn
    ensures PhaseIndex(d, yesterdayDusk, d.dusk) == 16
  {
    MidpointWithin(yesterdayDusk, d.dawn);
  }

  /** With the half-open night test, dusk opens the evening night. */
  lemma DuskInstantHalfOpen(d: SolarDay, yesterdayDusk: int)
    requires Ordered(d) && d.dusk + 2 <= d.dawn + Day
    ensures PhaseIndexHalfOpen(d, yesterdayDusk, d.dusk) == 15
  {
  }

  /** The corrected selector splits the whole evening night, dusk included,
      at its midpoint, and differs from the one as written at no other
      instant. */
  lemma HalfOpenNight(d: SolarDay, yesterdayDusk: int, now: int)
    requires Ordered(d)
    ensures now >= d.dusk ==>
      PhaseIndexHalfOpen(d, yesterdayDusk, now) == (if now < Midpoint(d.dusk, d.dawn + Day) then 15 else 16)
    ensures now != d.dusk ==>
      PhaseIndexHalfOpen(d, yesterdayDusk, now) == PhaseIndex(d, yesterdayDusk, now)
  {
  }
}
