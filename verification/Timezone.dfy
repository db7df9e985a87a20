/**
 * Wall-clock time in a zone whose UTC offset is a step function, and the two-pass
 * correction that inverts it. The offset function is arbitrary; only its range and
 * the spacing of its jumps are constrained.
 */
module Timezone {
  import opened Calendar

  /**
   * `off(t)` is the offset in milliseconds at instant `t`; `lo <= 0 <= hi` bound it.
   * `midnightAs24` says whether the formatter prints midnight as hour 24.
   */
  datatype Zone = Zone(off: int -> int, lo: int, hi: int, midnightAs24: bool)

  /** The offset changes between `t - 1` and `t`. */
  predicate Jump(z: Zone, t: int) {
    z.off(t - 1) != z.off(t)
  }

  /** Offsets stay in range and jumps are further apart than the range is wide. */
  ghost predicate IsZone(z: Zone) {
    && z.lo <= 0 <= z.hi
    && (forall t :: z.lo <= z.off(t) <= z.hi)
    && (forall s, t :: s < t && Jump(z, s) && Jump(z, t) ==> t - s > z.hi - z.lo)
  }

  /** What a wall clock in the zone shows at instant `t`, as a UTC-style count. */
  function Wall(z: Zone, t: int): int {
    t + z.off(t)
  }

  /** Two corrective passes from the literal-UTC reading of wall-clock `w`. */
  function Resolve(z: Zone, w: int): int {
    var first := w - z.off(w);
    w - z.off(first)
  }

  // ---------- One jump per window ----------

  lemma {:induction false} JumpBetween(z: Zone, a: int, b: int) returns (t: int)
    requires a < b && z.off(a) != z.off(b)
    ensures a < t <= b && Jump(z, t)
    decreases b - a
  {
    if z.off(b - 1) != z.off(b) {
      t := b;
    } else {
      t := JumpBetween(z, a, b - 1);
    }
  }

  /** No jump in (a, b] means one offset on [a, b]. */
  lemma Constant(z: Zone, a: int, b: int, x: int)
    requires a <= x <= b
    requires forall t :: a < t <= b ==> !Jump(z, t)
    ensures z.off(x) == z.off(a)
  {
    if z.off(x) != z.off(a) {
      var t := JumpBetween(z, a, x);
    }
  }

  /**
   * On the window [w - hi, w - lo], which holds `w` and every instant that could show `w`,
   * the offset is a single step from `before` to `after` at `at`.
   */
  lemma WindowStep(z: Zone, w: int) returns (at: int, before: int, after: int)
    requires IsZone(z)
    ensures forall x :: w - z.hi <= x <= w - z.lo ==> z.off(x) == if x < at then before else after
    ensures z.lo <= before <= z.hi && z.lo <= after <= z.hi
    ensures before != after ==>
      Jump(z, at) && z.off(at - 1) == before && z.off(at) == after && w - z.hi < at <= w - z.lo
    ensures before == after ==> at == w
  {
    var a, b := w - z.hi, w - z.lo;
    if t :| a < t <= b && Jump(z, t) {
      at, before, after := t, z.off(t - 1), z.off(t);
      forall x | a <= x <= b
        ensures z.off(x) == if x < at then before else after
      {
        if x < at {
          Constant(z, x, at - 1, at - 1);
        } else {
          Constant(z, at, x, x);
        }
      }
    } else {
      at, before, after := w, z.off(a), z.off(a);
      forall x | a <= x <= b
        ensures z.off(x) == before
      {
        Constant(z, a, b, x);
      }
    }
  }

  // ---------- The inverse law ----------

  /** Wall-clock `w` lies in the gap that the forward jump at `t` skips. */
  predicate InGap(z: Zone, t: int, w: int) {
    z.off(t - 1) < z.off(t) && t + z.off(t - 1) <= w < t + z.off(t)
  }

  /** Wall-clock `w` is shown twice around the backward jump at `t`. */
  predicate InOverlap(z: Zone, t: int, w: int) {
    z.off(t) < z.off(t - 1) && t + z.off(t) <= w < t + z.off(t - 1)
  }

  /**
   * The two-pass result shows the requested wall clock exactly when no jump skips it.
   */
  lemma ResolveInvertsOutsideGaps(z: Zone, w: int)
    requires IsZone(z)
    ensures Wall(z, Resolve(z, w)) == w <==> !exists t :: InGap(z, t, w)
  {
    var at, before, after := WindowStep(z, w);
    if Wall(z, Resolve(z, w)) == w {
      forall t ensures !InGap(z, t, w) {
        if InGap(z, t, w) {
          GapIsSkipped(z, t, w, Resolve(z, w));
        }
      }
    } else {
      assert before < after;
      assert InGap(z, at, w);
    }
  }

  /** A wall clock inside a gap is shown at no instant. */
  lemma GapIsSkipped(z: Zone, t: int, w: int, u: int)
    requires IsZone(z) && InGap(z, t, w)
    ensures Wall(z, u) != w
  {
    var at, before, after := WindowStep(z, w);
    assert w - z.hi <= t - 1 && t <= w - z.lo;
    assert at == t;
  }

  /** A wall clock that no gap skips is shown at some instant, and only then. */
  lemma ShownIffNotSkipped(z: Zone, w: int)
    requires IsZone(z)
    ensures (exists u :: Wall(z, u) == w) <==> !exists t :: InGap(z, t, w)
  {
    ResolveInvertsOutsideGaps(z, w);
    if t :| InGap(z, t, w) {
      forall u ensures Wall(z, u) != w {
        GapIsSkipped(z, t, w, u);
      }
    }
  }

  // ---------- What happens at the jumps ----------

  /**
   * Inside a gap the result lies after the jump exactly when the literal-UTC reading does,
   * and it lands on the jump itself only for the first skipped wall clock.
   */
  lemma GapResolution(z: Zone, t: int, w: int)
    requires IsZone(z) && InGap(z, t, w)
    ensures Resolve(z, w) == w - (if w >= t then z.off(t - 1) else z.off(t))
    ensures Resolve(z, w) >= t <==> w >= t
    ensures Resolve(z, w) == t <==> w >= t && w == t + z.off(t - 1)
  {
    var at, before, after := WindowStep(z, w);
    assert w - z.hi <= t - 1 && t <= w - z.lo;
    assert at == t;
  }

  /**
   * Inside an overlap exactly two instants show the wall clock, one on each side of the
   * jump; the earlier one is chosen exactly when the literal-UTC reading precedes the jump.
   */
  lemma OverlapResolution(z: Zone, t: int, w: int)
    requires IsZone(z) && InOverlap(z, t, w)
    ensures forall u :: Wall(z, u) == w <==> u == w - z.off(t - 1) || u == w - z.off(t)
    ensures w - z.off(t - 1) < t <= w - z.off(t)
    ensures Resolve(z, w) == w - (if w < t then z.off(t - 1) else z.off(t))
  {
    var at, before, after := WindowStep(z, w);
    assert w - z.hi <= t - 1 && t <= w - z.lo;
    assert at == t;
  }

  /**
   * Converting an instant to wall-clock time and back returns it, except on the side of an
   * overlap that `OverlapResolution` does not choose.
   */
  lemma RoundTrip(z: Zone, u: int)
    requires IsZone(z)
    ensures Resolve(z, Wall(z, u)) == u <==>
            forall t :: InOverlap(z, t, Wall(z, u)) ==> (u < t <==> Wall(z, u) < t)
  {
    var w := Wall(z, u);
    var at, before, after := WindowStep(z, w);
    assert w - z.hi <= u <= w - z.lo;
    forall t | InOverlap(z, t, w)
      ensures t == at
      ensures Resolve(z, w) == u <==> (u < t <==> w < t)
    {
      OverlapResolution(z, t, w);
      assert w - z.hi <= t - 1 && t <= w - z.lo;
    }
    if Resolve(z, w) != u {
      ShownIffNotSkipped(z, w);
      ResolveInvertsOutsideGaps(z, w);
      assert InOverlap(z, at, w);
    }
  }

  // ---------- Day boundaries ----------

  /** From `Resolve(w)` on, and not before, wall clocks read `w` or later. */
  ghost predicate Separates(z: Zone, w: int) {
    forall u :: Wall(z, u) >= w <==> u >= Resolve(z, w)
  }

  /** The jump at `t` leaves the boundary `w` where `Resolve` puts it. */
  predicate Harmless(z: Zone, t: int, w: int) {
    && (InGap(z, t, w) ==> w == t + z.off(t - 1) && w >= t)
    && (InOverlap(z, t, w) ==> w == t + z.off(t) && w < t)
  }

  /**
   * `Resolve(w)` is the instant at which the local time line passes `w` exactly when every
   * jump that skips or repeats `w` is harmless: a gap that opens right at `w` with the
   * literal reading not before it, or an overlap that falls back right to `w` with the
   * literal reading before it.
   */
  lemma SeparatesIffHarmless(z: Zone, w: int)
    requires IsZone(z)
    ensures Separates(z, w) <==> forall t :: Harmless(z, t, w)
  {
    var at, before, after := WindowStep(z, w);
    forall t
      ensures (InGap(z, t, w) || InOverlap(z, t, w)) ==> t == at
    {
      if InGap(z, t, w) || InOverlap(z, t, w) {
        assert w - z.hi <= t - 1 && t <= w - z.lo;
      }
    }
    var r := Resolve(z, w);
    assert w - z.hi <= r <= w - z.lo;
    if Harmless(z, at, w) {
      forall u
        ensures Wall(z, u) >= w <==> u >= r
      {
        assert z.lo <= z.off(u) <= z.hi;
      }
    } else {
      HarmfulJump(z, w, at);
    }
  }

  /** A jump that is not harmless misplaces an instant next to it. */
  lemma HarmfulJump(z: Zone, w: int, t: int)
    requires IsZone(z) && !Harmless(z, t, w)
    ensures !Separates(z, w)
  {
    var r := Resolve(z, w);
    if InGap(z, t, w) {
      GapResolution(z, t, w);
      assert Wall(z, t) >= w && Wall(z, t - 1) < w;
    } else {
      OverlapResolution(z, t, w);
      var first, second := w - z.off(t - 1), w - z.off(t);
      assert Wall(z, first) == w && Wall(z, second) == w;
      if r == first {
        assert Wall(z, t) < w;
      }
    }
  }

  /** Wall clocks a day apart resolve in order when the offsets differ by less than a day. */
  lemma DaysAdvance(z: Zone, w: int)
    requires IsZone(z) && z.hi - z.lo < MS_PER_DAY
    ensures Resolve(z, w) < Resolve(z, w + MS_PER_DAY)
  {
    assert z.lo <= z.off(w - z.off(w)) <= z.hi;
    var v := w + MS_PER_DAY;
    assert z.lo <= z.off(v - z.off(v)) <= z.hi;
  }

  /** `n` consecutive local days starting at wall-clock midnight `w`. */
  function DayStart(z: Zone, w: int, k: nat): int {
    Resolve(z, w + DayStartMs(k))
  }

  lemma {:induction false} DayStartsIncrease(z: Zone, w: int, j: nat, k: nat)
    requires IsZone(z) && z.hi - z.lo < MS_PER_DAY
    requires j < k
    ensures DayStart(z, w, j) < DayStart(z, w, k)
    decreases k
  {
    DaysAdvance(z, w + DayStartMs(k - 1));
    assert w + DayStartMs(k - 1) + MS_PER_DAY == w + DayStartMs(k);
    if j < k - 1 {
      DayStartsIncrease(z, w, j, k - 1);
    }
  }

  /** `u` lies in the half-open range of the `k`-th day from `w`. */
  predicate InDay(z: Zone, w: int, k: nat, u: int) {
    DayStart(z, w, k) <= u < DayStart(z, w, k + 1)
  }

  /** Every instant of the span of `n` days lies in one of the day ranges. */
  lemma {:induction false} FindDay(z: Zone, w: int, n: nat, u: int) returns (k: nat)
    requires IsZone(z) && z.hi - z.lo < MS_PER_DAY
    requires DayStart(z, w, 0) <= u < DayStart(z, w, n)
    ensures k < n && InDay(z, w, k, u)
    decreases n
  {
    if DayStart(z, w, n - 1) <= u {
      k := n - 1;
    } else {
      k := FindDay(z, w, n - 1, u);
    }
  }

  lemma DaysDisjoint(z: Zone, w: int, j: nat, k: nat, u: int)
    requires IsZone(z) && z.hi - z.lo < MS_PER_DAY
    requires j < k && InDay(z, w, j, u)
    ensures !InDay(z, w, k, u)
  {
    if j + 1 < k {
      DayStartsIncrease(z, w, j + 1, k);
    }
  }

  /**
   * The half-open day ranges tile the line: every instant of the span of `n` days lies in
   * exactly one of them.
   */
  lemma DaysTile(z: Zone, w: int, n: nat, u: int)
    requires IsZone(z) && z.hi - z.lo < MS_PER_DAY
    requires DayStart(z, w, 0) <= u < DayStart(z, w, n)
    ensures exists k: nat :: k < n && InDay(z, w, k, u) && forall j: nat :: InDay(z, w, j, u) ==> j == k
  {
    var k := FindDay(z, w, n, u);
    forall j: nat | InDay(z, w, j, u)
      ensures j == k
    {
      if j < k {
        DaysDisjoint(z, w, j, k, u);
      } else if k < j {
        DaysDisjoint(z, w, k, j, u);
      }
    }
  }

  /** The wall clock at `u` reads a time of the day that starts at midnight `w`. */
  predicate OnDay(z: Zone, w: int, u: int) {
    w <= Wall(z, u) < w + MS_PER_DAY
  }

  /** `u` lies between the resolved ends of that day. */
  predicate InRange(z: Zone, w: int, u: int) {
    Resolve(z, w) <= u < Resolve(z, w + MS_PER_DAY)
  }

  /** The resolved range of the day holds exactly the instants that read that day. */
  ghost predicate RangeIsDay(z: Zone, w: int) {
    forall u :: InRange(z, w, u) <==> OnDay(z, w, u)
  }

  ghost predicate HarmlessJumps(z: Zone, w: int) {
    forall t :: Harmless(z, t, w)
  }

  /**
   * The range from midnight `w` to the next midnight holds exactly the instants whose wall
   * clock reads that day, exactly when every jump is harmless to both midnights.
   */
  lemma DayRangeIsLocalDay(z: Zone, w: int)
    requires IsZone(z) && z.hi - z.lo < MS_PER_DAY
    ensures RangeIsDay(z, w) <==> HarmlessJumps(z, w) && HarmlessJumps(z, w + MS_PER_DAY)
  {
    var v := w + MS_PER_DAY;
    SeparatesIffHarmless(z, w);
    SeparatesIffHarmless(z, v);
    if RangeIsDay(z, w) {
      RangeSeparates(z, w);
    } else if HarmlessJumps(z, w) && HarmlessJumps(z, v) {
      SeparatedRange(z, w);
    }
  }

  lemma SeparatedRange(z: Zone, w: int)
    requires Separates(z, w) && Separates(z, w + MS_PER_DAY)
    ensures RangeIsDay(z, w)
  {
    forall u
      ensures InRange(z, w, u) <==> OnDay(z, w, u)
    {
      assert Wall(z, u) >= w <==> u >= Resolve(z, w);
    }
  }

  lemma RangeSeparates(z: Zone, w: int)
    requires IsZone(z) && z.hi - z.lo < MS_PER_DAY
    requires RangeIsDay(z, w)
    ensures Separates(z, w) && Separates(z, w + MS_PER_DAY)
  {
    var v := w + MS_PER_DAY;
    DaysAdvance(z, w);
    assert z.lo <= z.off(w - z.off(w)) <= z.hi && z.lo <= z.off(v - z.off(v)) <= z.hi;
    forall u
      ensures Wall(z, u) >= w <==> u >= Resolve(z, w)
      ensures Wall(z, u) >= v <==> u >= Resolve(z, v)
    {
      assert z.lo <= z.off(u) <= z.hi;
      assert InRange(z, w, u) <==> OnDay(z, w, u);
    }
  }

  // ---------- The documented policy ----------

  const HOUR := 3600000

  /** One forward jump of an hour at instant 0, from UTC-5 to UTC-4. */
  const WESTERN := Zone(t => if t < 0 then -5 * HOUR else -4 * HOUR, -5 * HOUR, 0, false)

  /** One backward jump of an hour at instant 0, from UTC+3 to UTC+2. */
  const EASTERN := Zone(t => if t < 0 then 3 * HOUR else 2 * HOUR, 0, 3 * HOUR, false)

  /**
   * The comment on lines 7 to 11 promises an instant after the jump for a skipped wall clock
   * and the first occurrence for a repeated one. West of Greenwich a skipped wall clock lands
   * before the jump, and east of it a repeated one lands on the second occurrence.
   */
  lemma DocumentedPolicyFails()
    ensures IsZone(WESTERN) && InGap(WESTERN, 0, -5 * HOUR) && Resolve(WESTERN, -5 * HOUR) < 0
    ensures IsZone(EASTERN) && InOverlap(EASTERN, 0, 2 * HOUR)
    ensures Resolve(EASTERN, 2 * HOUR) == 0 && Wall(EASTERN, -HOUR) == 2 * HOUR
  {
    assert WESTERN.off(-5 * HOUR) == -5 * HOUR && WESTERN.off(0) == -4 * HOUR;
    assert EASTERN.off(2 * HOUR) == 2 * HOUR;
  }
}
