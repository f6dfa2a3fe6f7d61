/** Wall-clock time in a named zone (`apps/api/src/lib/timezone.ts`).

    Time is a line of whole minutes. An instant is a minute count in UTC and a wall time
    is the minute count of the same calendar reading taken as if it were UTC (what
    `Date.UTC` returns divided by 60 000). A zone is the table behind the platform's
    formatter: a base offset and the transitions that replace it.
 */
module Timezone {

  /** From minute `at` on, clocks in the zone show UTC plus `offset` minutes. */
  datatype Transition = Transition(at: int, offset: int)

  datatype Zone = Zone(base: int, transitions: seq<Transition>)

  const MAX_OFFSET := 14 * 60
  const MIN_SPACING := 28 * 60

  /** Offsets within fourteen hours; transitions in order and more than 28 hours apart. */
  predicate ValidZone(z: Zone) {
    && -MAX_OFFSET <= z.base <= MAX_OFFSET
    && (forall i | 0 <= i < |z.transitions| :: -MAX_OFFSET <= z.transitions[i].offset <= MAX_OFFSET)
    && (forall i, j | 0 <= i < j < |z.transitions| :: z.transitions[i].at + MIN_SPACING < z.transitions[j].at)
  }

  /** `offsetMinutesAt`: the offset of the last transition at or before the instant. */
  function OffsetMinutesAt(z: Zone, instant: int): int
    decreases |z.transitions|
  {
    var n := |z.transitions|;
    if n == 0 then z.base
    else if z.transitions[n - 1].at <= instant then z.transitions[n - 1].offset
    else OffsetMinutesAt(Zone(z.base, z.transitions[..n - 1]), instant)
  }

  /** `utcToZonedWallTime`: what a clock in the zone shows at an instant. */
  function UtcToZonedWallTime(z: Zone, instant: int): int {
    instant + OffsetMinutesAt(z, instant)
  }

  function FirstGuess(z: Zone, wall: int): int {
    wall - OffsetMinutesAt(z, wall)
  }

  function Corrected(z: Zone, wall: int): int {
    wall - OffsetMinutesAt(z, FirstGuess(z, wall))
  }

  /** `zonedWallTimeToUtc`: two passes, then the read-back check. */
  function ZonedWallTimeToUtc(z: Zone, wall: int): int {
    if UtcToZonedWallTime(z, Corrected(z, wall)) != wall then FirstGuess(z, wall)
    else Corrected(z, wall)
  }

  // ---- What a wall time can mean ----

  /** The instants at which a clock in the zone shows `wall`. */
  ghost predicate Reads(z: Zone, instant: int, wall: int) {
    UtcToZonedWallTime(z, instant) == wall
  }

  ghost predicate Skipped(z: Zone, wall: int) {
    forall t :: !Reads(z, t, wall)
  }

  ghost predicate Repeated(z: Zone, wall: int, first: int, second: int) {
    first < second && Reads(z, first, wall) && Reads(z, second, wall)
  }

  ghost predicate Unique(z: Zone, wall: int, instant: int) {
    Reads(z, instant, wall) && forall t :: Reads(z, t, wall) ==> t == instant
  }

  /** Around `wall` the zone shows `before` until the transition `at` and `after` from it on. */
  ghost predicate LooksLike(z: Zone, wall: int, at: int, before: int, after: int) {
    forall t | wall - MAX_OFFSET <= t <= wall + MAX_OFFSET ::
      OffsetMinutesAt(z, t) == if t < at then before else after
  }

  /** `at` is one of the zone's transitions, from offset `before` to offset `after`. */
  ghost predicate Changes(z: Zone, at: int, before: int, after: int) {
    exists i :: 0 <= i < |z.transitions|
      && z.transitions[i] == Transition(at, after)
      && before == if i == 0 then z.base else z.transitions[i - 1].offset
  }

  // ---- The window around a wall time holds at most one transition ----

  lemma {:induction false} OffsetFrom(z: Zone, i: nat, t: int)
    requires ValidZone(z) && i <= |z.transitions|
    requires i == 0 || z.transitions[i - 1].at <= t
    requires i == |z.transitions| || t < z.transitions[i].at
    ensures OffsetMinutesAt(z, t) == if i == 0 then z.base else z.transitions[i - 1].offset
    decreases |z.transitions|
  {
    var n := |z.transitions|;
    if n != 0 && t < z.transitions[n - 1].at {
      var shorter := Zone(z.base, z.transitions[..n - 1]);
      OffsetFrom(shorter, i, t);
    } else if n != 0 {
      assert i == n;
    }
  }

  lemma {:induction false} OffsetBounded(z: Zone, t: int)
    requires ValidZone(z)
    ensures -MAX_OFFSET <= OffsetMinutesAt(z, t) <= MAX_OFFSET
    decreases |z.transitions|
  {
    var n := |z.transitions|;
    if n != 0 && t < z.transitions[n - 1].at {
      OffsetBounded(Zone(z.base, z.transitions[..n - 1]), t);
    }
  }

  /** The number of transitions at or before an instant. */
  ghost function Passed(z: Zone, t: int): (i: nat)
    requires ValidZone(z)
    ensures i <= |z.transitions|
    ensures i == 0 || z.transitions[i - 1].at <= t
    ensures i == |z.transitions| || t < z.transitions[i].at
    decreases |z.transitions|
  {
    var n := |z.transitions|;
    if n == 0 || z.transitions[n - 1].at <= t then n
    else Passed(Zone(z.base, z.transitions[..n - 1]), t)
  }

  /** Every wall time sees one local shape: a single (possibly trivial) change of offset. */
  lemma LocalShape(z: Zone, wall: int) returns (at: int, before: int, after: int)
    requires ValidZone(z)
    ensures -MAX_OFFSET <= before <= MAX_OFFSET && -MAX_OFFSET <= after <= MAX_OFFSET
    ensures LooksLike(z, wall, at, before, after)
    ensures before == after || Changes(z, at, before, after)
  {
    var i := Passed(z, wall - MAX_OFFSET);
    var lo := wall - MAX_OFFSET;
    before := if i == 0 then z.base else z.transitions[i - 1].offset;
    if i == |z.transitions| || wall + MAX_OFFSET < z.transitions[i].at {
      at, after := lo, before;
      forall t | lo <= t <= wall + MAX_OFFSET ensures OffsetMinutesAt(z, t) == before {
        OffsetFrom(z, i, t);
      }
    } else {
      at, after := z.transitions[i].at, z.transitions[i].offset;
      assert z.transitions[i] == Transition(at, after);
      forall t | lo <= t <= wall + MAX_OFFSET
        ensures OffsetMinutesAt(z, t) == if t < at then before else after
      {
        OffsetFrom(z, if t < at then i else i + 1, t);
      }
    }
  }

  /** An instant that reads `wall` lies within the largest offset of it. */
  lemma ReadsNearby(z: Zone, t: int, wall: int)
    requires ValidZone(z) && Reads(z, t, wall)
    ensures wall - MAX_OFFSET <= t <= wall + MAX_OFFSET
  {
    OffsetBounded(z, t);
  }

  /** Within a local shape, the only candidates are the two offsets' answers. */
  lemma ReadingsOf(z: Zone, wall: int, at: int, before: int, after: int, t: int)
    requires ValidZone(z) && LooksLike(z, wall, at, before, after)
    requires -MAX_OFFSET <= before <= MAX_OFFSET && -MAX_OFFSET <= after <= MAX_OFFSET
    ensures Reads(z, t, wall) <==> (t == wall - before && t < at) || (t == wall - after && at <= t)
  {
    if Reads(z, t, wall) {
      ReadsNearby(z, t, wall);
    }
  }

  // ---- What the two passes return ----

  /** A wall time that exists resolves to an instant that shows it. */
  lemma ResolvesToAReading(z: Zone, wall: int)
    requires ValidZone(z)
    ensures Reads(z, ZonedWallTimeToUtc(z, wall), wall) <==> !Skipped(z, wall)
  {
    var at, before, after := LocalShape(z, wall);
    ReadingsOf(z, wall, at, before, after, wall - before);
    ReadingsOf(z, wall, at, before, after, wall - after);
    ReadingsOf(z, wall, at, before, after, ZonedWallTimeToUtc(z, wall));
    if !Skipped(z, wall) {
      var t :| Reads(z, t, wall);
      ReadingsOf(z, wall, at, before, after, t);
    }
  }

  /** A wall time shown exactly once resolves to that instant. */
  lemma UniqueWallTime(z: Zone, wall: int, instant: int)
    requires ValidZone(z) && Unique(z, wall, instant)
    ensures ZonedWallTimeToUtc(z, wall) == instant
  {
    ResolvesToAReading(z, wall);
  }

  /** A repeated wall time is shown exactly twice, on the two sides of one transition. */
  lemma RepeatedShape(z: Zone, wall: int, first: int, second: int)
    returns (at: int, before: int, after: int)
    requires ValidZone(z) && Repeated(z, wall, first, second)
    ensures Changes(z, at, before, after) && LooksLike(z, wall, at, before, after)
    ensures first == wall - before && second == wall - after && after < before && first < at <= second
    ensures forall t :: Reads(z, t, wall) ==> t == first || t == second
  {
    at, before, after := LocalShape(z, wall);
    ReadingsOf(z, wall, at, before, after, first);
    ReadingsOf(z, wall, at, before, after, second);
    forall t | Reads(z, t, wall) ensures t == first || t == second {
      ReadingsOf(z, wall, at, before, after, t);
    }
  }

  /** A repeated wall time resolves to the first instant exactly when the wall time, read
      as UTC, precedes the transition; otherwise it resolves to the second. */
  lemma RepeatedWallTime(z: Zone, wall: int, first: int, second: int)
    returns (at: int, before: int, after: int)
    requires ValidZone(z) && Repeated(z, wall, first, second)
    ensures Changes(z, at, before, after) && first < at <= second
    ensures first == wall - before && second == wall - after
    ensures ZonedWallTimeToUtc(z, wall) == first <==> wall < at
    ensures ZonedWallTimeToUtc(z, wall) == second <==> at <= wall
  {
    at, before, after := RepeatedShape(z, wall, first, second);
  }

  /** The sign of the offsets decides a repeated hour: west of UTC the first occurrence is
      taken, east of UTC always the second, whatever the comment promises. */
  lemma RepeatedBySign(z: Zone, wall: int, first: int, second: int)
    requires ValidZone(z) && Repeated(z, wall, first, second)
    ensures OffsetMinutesAt(z, first) <= 0 ==> ZonedWallTimeToUtc(z, wall) == first
    ensures OffsetMinutesAt(z, second) >= 0 ==> ZonedWallTimeToUtc(z, wall) == second
  {
    var at, before, after := RepeatedWallTime(z, wall, first, second);
  }

  /** A skipped wall time lies in the gap one transition opens. */
  lemma SkippedShape(z: Zone, wall: int) returns (at: int, before: int, after: int)
    requires ValidZone(z) && Skipped(z, wall)
    ensures Changes(z, at, before, after) && LooksLike(z, wall, at, before, after)
    ensures at + before <= wall < at + after
  {
    at, before, after := LocalShape(z, wall);
    ReadingsOf(z, wall, at, before, after, wall - before);
    ReadingsOf(z, wall, at, before, after, wall - after);
  }

  /** A skipped wall time resolves after the gap exactly when the wall time, read as UTC,
      precedes the transition; otherwise it resolves before it. Either way the clock at the
      answer is off by exactly the size of the gap. */
  lemma SkippedWallTime(z: Zone, wall: int) returns (at: int, before: int, after: int)
    requires ValidZone(z) && Skipped(z, wall)
    ensures Changes(z, at, before, after) && at + before <= wall < at + after
    ensures at <= ZonedWallTimeToUtc(z, wall) <==> wall < at
    ensures wall < at ==> UtcToZonedWallTime(z, ZonedWallTimeToUtc(z, wall)) == wall + (after - before)
    ensures at <= wall ==> UtcToZonedWallTime(z, ZonedWallTimeToUtc(z, wall)) == wall - (after - before)
  {
    at, before, after := SkippedShape(z, wall);
  }

  /** So west of UTC a skipped time is sent late, and east of UTC it is sent early. */
  lemma SkippedBySign(z: Zone, wall: int) returns (at: int, before: int, after: int)
    requires ValidZone(z) && Skipped(z, wall)
    ensures Changes(z, at, before, after) && at + before <= wall < at + after
    ensures after <= 0 ==> at <= ZonedWallTimeToUtc(z, wall)
    ensures before >= 0 ==> ZonedWallTimeToUtc(z, wall) < at
  {
    at, before, after := SkippedWallTime(z, wall);
  }

  /** A third pass would change the answer of exactly the skipped wall times. */
  lemma ThirdPass(z: Zone, wall: int)
    requires ValidZone(z)
    ensures wall - OffsetMinutesAt(z, Corrected(z, wall)) == Corrected(z, wall) <==> !Skipped(z, wall)
  {
    ResolvesToAReading(z, wall);
    if Skipped(z, wall) {
      assert !Reads(z, Corrected(z, wall), wall);
    }
  }

  /** Reading an instant's own wall time back returns the instant, unless it shows a
      repeated time and is the occurrence that is not taken. */
  lemma RoundTrip(z: Zone, instant: int)
    requires ValidZone(z)
    ensures var wall := UtcToZonedWallTime(z, instant);
      ZonedWallTimeToUtc(z, wall) != instant ==>
        exists other :: (Repeated(z, wall, instant, other) || Repeated(z, wall, other, instant))
          && ZonedWallTimeToUtc(z, wall) == other
  {
    var wall := UtcToZonedWallTime(z, instant);
    assert Reads(z, instant, wall);
    ResolvesToAReading(z, wall);
    var r := ZonedWallTimeToUtc(z, wall);
    if r != instant {
      assert Repeated(z, wall, instant, r) || Repeated(z, wall, r, instant);
    }
  }

  // ---- The comment's two promises, refuted on an ordinary zone ----

  /** One hour east of UTC, minute 10000 starts summer time and minute 20000 ends it. */
  const EUROPE := Zone(60, [Transition(10_000, 120), Transition(20_000, 60)])

  /** The gap is 10060..10120; 10090 is sent at 10030 shown on the clock: an hour early. */
  lemma SkippedWitness()
    ensures ValidZone(EUROPE) && Skipped(EUROPE, 10_090)
    ensures UtcToZonedWallTime(EUROPE, ZonedWallTimeToUtc(EUROPE, 10_090)) == 10_030
  {
    assert OffsetMinutesAt(EUROPE, 10_090) == 120;
    forall t ensures !Reads(EUROPE, t, 10_090) {
      OffsetFrom(EUROPE, Passed(EUROPE, t), t);
    }
    OffsetFrom(EUROPE, 0, 9_970);
  }

  /** 20090 is shown at 19970 and at 20030, and the later one is taken. */
  lemma RepeatedWitness()
    ensures ValidZone(EUROPE) && Repeated(EUROPE, 20_090, 19_970, 20_030)
    ensures ZonedWallTimeToUtc(EUROPE, 20_090) == 20_030
  {
    OffsetFrom(EUROPE, 1, 19_970);
    OffsetFrom(EUROPE, 2, 20_030);
  }
}
