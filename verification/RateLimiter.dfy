/** The per-mailbox token bucket (`apps/api/src/lib/rateLimiter.ts`).

    Tokens are counted in thousandths of a quota unit, so that elapsed milliseconds times
    units per second is a whole number; the original computes the same quantity in floating
    point. Waiters are numbered in order of arrival. A bucket value also carries its own
    history: how many requests were admitted, which were granted and when (by the bucket's
    clock), and which waits were aborted.
 */
module RateLimiter {
  import opened Common

  datatype Waiter = Waiter(id: nat, units: nat)

  /** Waiter or caller `id` got `units` when the bucket's clock stood at `at`. */
  datatype Grant = Grant(id: nat, units: nat, at: int)

  datatype Bucket = Bucket(
    capacity: nat, rate: nat,
    tokens: int, last: int, waiters: seq<Waiter>, timer: Option<int>,
    arrived: nat, grants: seq<Grant>, aborted: set<nat>)

  datatype Outcome = Granted | Queued | TooLarge | AlreadyAborted

  function CeilDiv(x: nat, y: nat): nat
    requires 0 < y
  {
    (x + y - 1) / y
  }

  // ---- The bucket's operations as functions on its value ----

  function Refill(b: Bucket, now: int): Bucket {
    if now <= b.last then b
    else b.(tokens := Min(1000 * b.capacity, b.tokens + b.rate * (now - b.last)), last := now)
  }

  function WaitMs(b: Bucket, units: nat): nat
    requires 0 < b.rate
  {
    Max(5, CeilDiv(Max(0, 1000 * units - b.tokens), b.rate))
  }

  function Schedule(b: Bucket, now: int): Bucket
    requires 0 < b.rate
  {
    if b.timer.Some? || b.waiters == [] then b
    else b.(timer := Some(now + WaitMs(b, b.waiters[0].units)))
  }

  /** Wakes the waiters at the head of the queue for as long as the tokens last. */
  function Serve(b: Bucket): (r: Bucket)
    ensures r.capacity == b.capacity && r.rate == b.rate && r.last == b.last && r.timer == b.timer
    ensures r.arrived == b.arrived && r.aborted == b.aborted
    ensures r.waiters == [] || r.tokens < 1000 * r.waiters[0].units
    decreases |b.waiters|
  {
    if b.waiters == [] || b.tokens < 1000 * b.waiters[0].units then b
    else
      var next := b.waiters[0];
      Serve(b.(waiters := b.waiters[1..],
               tokens := b.tokens - 1000 * next.units,
               grants := b.grants + [Grant(next.id, next.units, b.last)]))
  }

  function Acquire(b: Bucket, now: int, units: nat, signalAborted: bool): (Bucket, Outcome)
    requires 0 < b.rate
  {
    if units > b.capacity then (b, TooLarge)
    else if signalAborted then (b, AlreadyAborted)
    else
      var r := Refill(b, now);
      var id := r.arrived;
      if r.waiters == [] && r.tokens >= 1000 * units then
        (r.(tokens := r.tokens - 1000 * units, arrived := id + 1,
            grants := r.grants + [Grant(id, units, r.last)]), Granted)
      else
        (Schedule(r.(waiters := r.waiters + [Waiter(id, units)], arrived := id + 1), now), Queued)
  }

  function Without(ws: seq<Waiter>, id: nat): seq<Waiter> {
    if ws == [] then []
    else if ws[0].id == id then ws[1..]
    else [ws[0]] + Without(ws[1..], id)
  }

  predicate IsWaiting(b: Bucket, id: nat) {
    exists k :: 0 <= k < |b.waiters| && b.waiters[k].id == id
  }

  /** The abort listener of one waiter; a waiter that was served has none left. */
  function Abort(b: Bucket, id: nat): Bucket {
    if IsWaiting(b, id) then b.(waiters := Without(b.waiters, id), aborted := b.aborted + {id})
    else b
  }

  function Fire(b: Bucket, now: int): Bucket
    requires 0 < b.rate
  {
    Schedule(Serve(Refill(b.(timer := None), now)), now)
  }

  // ---- Runs ----

  datatype Event =
    | Look(now: int)
    | Request(now: int, units: nat, signalAborted: bool)
    | Cancel(id: nat)
    | TimerFires(now: int)

  function Step(b: Bucket, e: Event): Bucket
    requires 0 < b.rate
  {
    match e
    case Look(now) => Refill(b, now)
    case Request(now, units, signalAborted) => Acquire(b, now, units, signalAborted).0
    case Cancel(id) => Abort(b, id)
    case TimerFires(now) => if b.timer.None? then b else Fire(b, now)
  }

  function Run(b: Bucket, events: seq<Event>): Bucket
    requires Valid(b)
    ensures Valid(Run(b, events))
    decreases events
  {
    if events == [] then b
    else
      StepValid(b, events[0]);
      Run(Step(b, events[0]), events[1..])
  }

  function Fresh(capacity: nat, rate: nat, now: int): Bucket {
    Bucket(capacity, rate, 1000 * capacity, now, [], None, 0, [], {})
  }

  // ---- The invariant every step keeps ----

  /** Request numbers in the order the bucket serves them: granted first, then waiting. */
  function Order(b: Bucket): seq<nat> {
    seq(|b.grants|, i requires 0 <= i < |b.grants| => b.grants[i].id)
    + seq(|b.waiters|, i requires 0 <= i < |b.waiters| => b.waiters[i].id)
  }

  predicate Increasing(s: seq<nat>) {
    forall i, j | 0 <= i < j < |s| :: s[i] < s[j]
  }

  /** Grants follow arrivals: the served and the waiting requests together are exactly the
      admitted ones whose wait was not aborted, in the order they arrived. */
  ghost predicate Fifo(b: Bucket) {
    && Increasing(Order(b))
    && (forall id: nat :: id in Order(b) <==> id < b.arrived && id !in b.aborted)
    && (forall id: nat | id in b.aborted :: id < b.arrived)
  }

  /** The longest any timer is armed for. */
  function LongestWait(b: Bucket): nat
    requires 0 < b.rate
  {
    Max(5, CeilDiv(1000 * b.capacity, b.rate))
  }

  ghost predicate Valid(b: Bucket) {
    && 0 < b.rate
    && 0 <= b.tokens <= 1000 * b.capacity
    && (forall k | 0 <= k < |b.waiters| :: b.waiters[k].units <= b.capacity)
    && (b.waiters != [] ==> b.timer.Some?)
    && (forall k | 0 <= k < |b.grants| :: b.grants[k].at <= b.last)
    && Fifo(b)
  }

  /** All of `Valid` but the armed timer, which `Serve` leaves to `Schedule`. */
  ghost predicate Sound(b: Bucket) {
    Valid(b.(timer := Some(0)))
  }

  lemma RefillTokens(b: Bucket, now: int)
    requires 0 < b.rate && 0 <= b.tokens <= 1000 * b.capacity
    ensures b.tokens <= Refill(b, now).tokens <= 1000 * b.capacity
    ensures Refill(b, now).tokens <= b.tokens + b.rate * (Refill(b, now).last - b.last)
    ensures b.last <= Refill(b, now).last
  {
    if b.last < now {
      assert 0 <= b.rate * (now - b.last);
    }
  }

  lemma FifoOf(b: Bucket, c: Bucket)
    requires Fifo(b) && Order(c) == Order(b) && c.arrived == b.arrived && c.aborted == b.aborted
    ensures Fifo(c)
  {
    assert forall id: nat :: id in Order(c) <==> id in Order(b);
  }

  lemma {:induction false} ServeSound(b: Bucket)
    requires Sound(b)
    ensures Sound(Serve(b)) && Order(Serve(b)) == Order(b)
    decreases |b.waiters|
  {
    if b.waiters != [] && b.tokens >= 1000 * b.waiters[0].units {
      var next := b.waiters[0];
      var c := b.(waiters := b.waiters[1..],
                  tokens := b.tokens - 1000 * next.units,
                  grants := b.grants + [Grant(next.id, next.units, b.last)]);
      assert Order(c) == Order(b);
      FifoOf(b.(timer := Some(0)), c.(timer := Some(0)));
      ServeSound(c);
    }
  }

  lemma WaiterId(b: Bucket, k: nat)
    requires k < |b.waiters|
    ensures Order(b)[|b.grants| + k] == b.waiters[k].id
  {}

  /** The request numbered `id` is at position `k` of the queue. */
  ghost predicate At(b: Bucket, id: nat, k: nat) {
    k < |b.waiters| && b.waiters[k].id == id
  }

  lemma {:induction false} WithoutIs(ws: seq<Waiter>, id: nat, k: nat)
    requires k < |ws| && ws[k].id == id
    requires forall i | 0 <= i < k :: ws[i].id != id
    ensures Without(ws, id) == ws[..k] + ws[k + 1..]
  {
    if k > 0 {
      WithoutIs(ws[1..], id, k - 1);
      assert ws[1..][..k - 1] == ws[1..k];
      assert [ws[0]] + ws[1..k] == ws[..k];
      assert ws[1..][k..] == ws[k + 1..];
    }
  }

  lemma DistinctIds(b: Bucket, i: nat, j: nat)
    requires Fifo(b) && i < |b.waiters| && j < |b.waiters| && b.waiters[i].id == b.waiters[j].id
    ensures i == j
  {
    WaiterId(b, i);
    WaiterId(b, j);
  }

  /** An abort takes exactly its own waiter out of the queue. */
  lemma AbortRemoves(b: Bucket, id: nat, k: nat)
    requires Fifo(b) && At(b, id, k)
    ensures Abort(b, id).waiters == b.waiters[..k] + b.waiters[k + 1..]
    ensures Abort(b, id) == b.(waiters := Abort(b, id).waiters, aborted := b.aborted + {id})
  {
    forall i | 0 <= i < k ensures b.waiters[i].id != id {
      if b.waiters[i].id == id { DistinctIds(b, i, k); }
    }
    WithoutIs(b.waiters, id, k);
  }

  lemma DropKeepsOrder(s: seq<nat>, n: nat, t: seq<nat>)
    requires Increasing(s) && n < |s| && t == s[..n] + s[n + 1..]
    ensures Increasing(t)
  {
    forall i, j | 0 <= i < j < |t| ensures t[i] < t[j] {
      assert t[i] == s[if i < n then i else i + 1] && t[j] == s[if j < n then j else j + 1];
    }
  }

  /** Taking one element out of an increasing sequence. */
  lemma DropOne(s: seq<nat>, n: nat, t: seq<nat>)
    requires Increasing(s) && n < |s| && t == s[..n] + s[n + 1..]
    ensures Increasing(t)
    ensures forall x: nat :: x in t <==> x in s && x != s[n]
  {
    DropKeepsOrder(s, n, t);
    forall x: nat ensures x in t <==> x in s && x != s[n] {
      if x in t {
        var i :| 0 <= i < |t| && t[i] == x;
        assert s[if i < n then i else i + 1] == x;
      }
      if x in s && x != s[n] {
        var i :| 0 <= i < |s| && s[i] == x;
        assert t[if i < n then i else i - 1] == x;
      }
    }
  }

  lemma AbortValid(b: Bucket, id: nat)
    requires Valid(b)
    ensures Valid(Abort(b, id))
  {
    if IsWaiting(b, id) {
      var k: nat :| k < |b.waiters| && b.waiters[k].id == id;
      AbortRemoves(b, id, k);
      WaiterId(b, k);
      AbortOrder(b, id, k);
      DropOne(Order(b), |b.grants| + k, Order(Abort(b, id)));
      assert id in Order(b);
    }
  }

  lemma AbortOrder(b: Bucket, id: nat, k: nat)
    requires Valid(b) && k < |b.waiters| && b.waiters[k].id == id
    ensures |Order(b)| == |b.grants| + |b.waiters|
    ensures Order(Abort(b, id)) == Order(b)[..|b.grants| + k] + Order(b)[|b.grants| + k + 1..]
  {
    AbortRemoves(b, id, k);
  }

  lemma AppendFifo(b: Bucket, c: Bucket)
    requires Fifo(b) && Order(c) == Order(b) + [b.arrived]
    requires c.arrived == b.arrived + 1 && c.aborted == b.aborted
    ensures Fifo(c)
  {
    forall i | 0 <= i < |Order(b)| ensures Order(b)[i] < b.arrived {
      assert Order(b)[i] in Order(b);
    }
    forall id: nat ensures id in Order(c) <==> id in Order(b) || id == b.arrived {}
  }

  lemma RefillValid(b: Bucket, now: int)
    requires Valid(b)
    ensures Valid(Refill(b, now))
  {
    RefillTokens(b, now);
    FifoOf(b, Refill(b, now));
  }

  lemma ScheduleValid(b: Bucket, now: int)
    requires Sound(b)
    ensures Valid(Schedule(b, now))
  {
    FifoOf(b.(timer := Some(0)), Schedule(b, now));
  }

  lemma FireValid(b: Bucket, now: int)
    requires Valid(b)
    ensures Valid(Fire(b, now))
  {
    var r := Refill(b.(timer := None), now);
    assert r.(timer := Some(0)) == Refill(b.(timer := Some(0)), now);
    FifoOf(b, b.(timer := Some(0)));
    RefillValid(b.(timer := Some(0)), now);
    ServeSound(r);
    ScheduleValid(Serve(r), now);
  }

  lemma FiresAs(b: Bucket, now: int, c: Bucket)
    requires Valid(b) && b.timer.Some? && c == Schedule(Serve(Refill(b.(timer := None), now)), now)
    ensures c == Step(b, TimerFires(now)) && Valid(c)
  {
    FireValid(b, now);
  }

  lemma AcquireValid(b: Bucket, now: int, units: nat, signalAborted: bool)
    requires Valid(b)
    ensures Valid(Acquire(b, now, units, signalAborted).0)
  {
    if units <= b.capacity && !signalAborted {
      var r := Refill(b, now);
      RefillValid(b, now);
      if r.waiters == [] && r.tokens >= 1000 * units {
        var c := Acquire(b, now, units, signalAborted).0;
        assert Order(c) == Order(r) + [r.arrived];
        AppendFifo(r, c);
      } else {
        var c := r.(waiters := r.waiters + [Waiter(r.arrived, units)], arrived := r.arrived + 1);
        assert Order(c.(timer := Some(0))) == Order(r) + [r.arrived];
        AppendFifo(r, c.(timer := Some(0)));
        ScheduleValid(c, now);
      }
    }
  }

  lemma StepValid(b: Bucket, e: Event)
    requires Valid(b)
    ensures Valid(Step(b, e))
  {
    match e
    case Look(now) => RefillValid(b, now);
    case Request(now, units, signalAborted) => AcquireValid(b, now, units, signalAborted);
    case Cancel(id) => AbortValid(b, id);
    case TimerFires(now) => if b.timer.Some? { FireValid(b, now); }
  }

  // ---- The rate bound ----

  /** Units granted while the bucket's clock read between `s` and `t`. */
  function GrantedIn(grants: seq<Grant>, s: int, t: int): nat {
    if grants == [] then 0
    else
      var g := grants[|grants| - 1];
      GrantedIn(grants[..|grants| - 1], s, t) + (if s <= g.at <= t then g.units else 0)
  }

  /** The rate bound over `[s, t]` so far; before the clock passes `t`, the tokens still in
      the bucket count as spent. */
  ghost predicate Bounded(b: Bucket, s: int, t: int) {
    if b.last <= t then
      1000 * GrantedIn(b.grants, s, t) + b.tokens <= 1000 * b.capacity + b.rate * Max(0, b.last - s)
    else
      1000 * GrantedIn(b.grants, s, t) <= 1000 * b.capacity + b.rate * Max(0, t - s)
  }

  lemma {:induction false} NothingBefore(grants: seq<Grant>, s: int, t: int, last: int)
    requires forall k | 0 <= k < |grants| :: grants[k].at <= last
    requires last < s
    ensures GrantedIn(grants, s, t) == 0
  {
    if grants != [] {
      NothingBefore(grants[..|grants| - 1], s, t, last);
    }
  }

  lemma Product(x: int, y: int, z: int)
    ensures x * (z - y) + x * y == x * z
  {}

  lemma Monotone(x: nat, y: int, z: int)
    requires y <= z
    ensures x * y <= x * z
  {}

  lemma RefillBounded(b: Bucket, now: int, s: int, t: int)
    requires Valid(b) && Bounded(b, s, t)
    ensures Bounded(Refill(b, now), s, t)
  {
    var r := Refill(b, now);
    if b.last < now {
      RefillTokens(b, now);
      if b.last < s {
        NothingBefore(b.grants, s, t, b.last);
        Monotone(b.rate, 0, Max(0, now - s));
        Monotone(b.rate, 0, Max(0, t - s));
      } else if b.last <= t {
        Product(b.rate, b.last - s, now - s);
        Monotone(b.rate, b.last - s, t - s);
      }
    }
  }

  /** Spending from the bucket moves units from the tokens to the grants. */
  lemma GrantBounded(b: Bucket, c: Bucket, id: nat, units: nat, s: int, t: int)
    requires Bounded(b, s, t)
    requires c.grants == b.grants + [Grant(id, units, b.last)] && c.tokens == b.tokens - 1000 * units
    requires c.capacity == b.capacity && c.rate == b.rate && c.last == b.last
    ensures Bounded(c, s, t)
  {
    assert c.grants[..|c.grants| - 1] == b.grants;
  }

  lemma {:induction false} ServeBounded(b: Bucket, s: int, t: int)
    requires Bounded(b, s, t)
    ensures Bounded(Serve(b), s, t)
    decreases |b.waiters|
  {
    if b.waiters != [] && b.tokens >= 1000 * b.waiters[0].units {
      var next := b.waiters[0];
      var c := b.(waiters := b.waiters[1..],
                  tokens := b.tokens - 1000 * next.units,
                  grants := b.grants + [Grant(next.id, next.units, b.last)]);
      GrantBounded(b, c, next.id, next.units, s, t);
      ServeBounded(c, s, t);
    }
  }

  lemma RequestBounded(b: Bucket, now: int, units: nat, signalAborted: bool, s: int, t: int)
    requires Valid(b) && Bounded(b, s, t)
    ensures Bounded(Step(b, Request(now, units, signalAborted)), s, t)
  {
    RefillBounded(b, now, s, t);
    var r := Refill(b, now);
    if units <= b.capacity && !signalAborted && r.waiters == [] && r.tokens >= 1000 * units {
      GrantBounded(r, Step(b, Request(now, units, signalAborted)), r.arrived, units, s, t);
    }
  }

  lemma StepBounded(b: Bucket, e: Event, s: int, t: int)
    requires Valid(b) && Bounded(b, s, t)
    ensures Bounded(Step(b, e), s, t)
  {
    match e
    case Look(now) => RefillBounded(b, now, s, t);
    case Request(now, units, signalAborted) => RequestBounded(b, now, units, signalAborted, s, t);
    case Cancel(id) =>
    case TimerFires(now) =>
      RefillBounded(b, now, s, t);
      ServeBounded(Refill(b.(timer := None), now), s, t);
  }

  lemma {:induction false} RunBounded(b: Bucket, events: seq<Event>, s: int, t: int)
    requires Valid(b) && Bounded(b, s, t)
    ensures Bounded(Run(b, events), s, t)
    decreases events
  {
    if events != [] {
      StepValid(b, events[0]);
      StepBounded(b, events[0], s, t);
      RunBounded(Step(b, events[0]), events[1..], s, t);
    }
  }

  lemma FreshValid(capacity: nat, rate: nat, now: int)
    requires 0 < rate
    ensures Valid(Fresh(capacity, rate, now))
  {
    assert Order(Fresh(capacity, rate, now)) == [];
  }

  /** Over every run and every interval, the units granted are at most one full bucket plus
      the refill of the interval. Nothing is assumed about the clock, not even that it
      moves forward. */
  lemma RateBound(capacity: nat, rate: nat, start: int, events: seq<Event>, s: int, t: int)
    requires 0 < rate && s <= t
    ensures Valid(Fresh(capacity, rate, start))
    ensures 1000 * GrantedIn(Run(Fresh(capacity, rate, start), events).grants, s, t)
      <= 1000 * capacity + rate * (t - s)
  {
    var b := Fresh(capacity, rate, start);
    FreshValid(capacity, rate, start);
    Monotone(rate, 0, Max(0, b.last - s));
    Monotone(rate, 0, Max(0, t - s));
    RunBounded(b, events, s, t);
    RunKeeps(b, events);
    IntervalBound(Run(b, events), s, t);
  }

  /** The bound is reached: a full bucket taken at once, and what has come since at the end. */
  lemma BoundIsReached(capacity: nat, rate: nat, start: int, ms: nat, units: nat)
    requires 0 < rate && 0 < ms && 1000 * units == rate * ms && units <= capacity
    ensures Valid(Fresh(capacity, rate, start))
    ensures var events := [Request(start, capacity, false), Request(start + ms, units, false)];
      1000 * GrantedIn(Run(Fresh(capacity, rate, start), events).grants, start, start + ms) == 1000 * capacity + rate * ms
  {
    var b := Fresh(capacity, rate, start);
    FreshValid(capacity, rate, start);
    var first, second := Request(start, capacity, false), Request(start + ms, units, false);
    var c := Step(b, first);
    assert c == b.(tokens := 0, arrived := 1, grants := [Grant(0, capacity, start)]);
    StepValid(b, first);
    assert rate * (start + ms - start) == rate * ms;
    var d := Step(c, second);
    assert d.grants == [Grant(0, capacity, start), Grant(1, units, start + ms)];
    assert [first, second][1..] == [second] && [second][1..] == [];
    StepValid(c, second);
    assert Run(d, []) == d && Run(c, [second]) == d && Run(b, [first, second]) == d;
    TwoGrants(Grant(0, capacity, start), Grant(1, units, start + ms), start, start + ms);
  }

  lemma TwoGrants(g: Grant, h: Grant, s: int, t: int)
    requires s <= g.at <= t && s <= h.at <= t
    ensures GrantedIn([g, h], s, t) == g.units + h.units
  {
    assert [g, h][..1] == [g] && [g][..0] == [];
    assert GrantedIn([g], s, t) == g.units;
  }

  /** What is still in the bucket pays for the part of the interval not reached yet. */
  lemma IntervalBound(e: Bucket, s: int, t: int)
    requires Valid(e) && Bounded(e, s, t) && s <= t
    ensures 1000 * GrantedIn(e.grants, s, t) <= 1000 * e.capacity + e.rate * (t - s)
  {
    if e.last <= t {
      if e.last < s {
        NothingBefore(e.grants, s, t, e.last);
        Monotone(e.rate, 0, t - s);
      } else {
        Monotone(e.rate, e.last - s, t - s);
      }
    }
  }

  lemma {:induction false} RunKeeps(b: Bucket, events: seq<Event>)
    requires Valid(b)
    ensures Run(b, events).capacity == b.capacity && Run(b, events).rate == b.rate
    decreases events
  {
    if events != [] {
      StepValid(b, events[0]);
      RunKeeps(Step(b, events[0]), events[1..]);
    }
  }

  // ---- Fairness ----

  /** The pending timer leaves the head of the queue enough time to be refilled for. */
  ghost predicate ArmedForHead(b: Bucket) {
    b.waiters != [] && b.timer.Some?
    && 1000 * b.waiters[0].units <= b.tokens + b.rate * Max(0, b.timer.value - b.last)
  }

  lemma EnoughRefill(b: Bucket, now: int, need: int)
    requires 0 < b.rate && need <= 1000 * b.capacity && b.last <= now
    requires need <= b.tokens + b.rate * (now - b.last)
    ensures need <= Refill(b, now).tokens
  {}

  /** A timer armed for the head serves the head when it fires. */
  lemma HeadIsServed(b: Bucket, now: int)
    requires Valid(b) && ArmedForHead(b) && b.timer.value <= now && b.last <= now
    ensures exists k :: 1 <= k <= |b.waiters| && Fire(b, now).waiters == b.waiters[k..]
    ensures exists g :: g in Fire(b, now).grants && g.id == b.waiters[0].id && g.units == b.waiters[0].units && g.at == now
  {
    HeadCanPay(b, now);
    var r := Refill(b.(timer := None), now);
    var k := ServeSuffix(r);
    ServeGrants(r);
  }

  lemma HeadCanPay(b: Bucket, now: int)
    requires Valid(b) && ArmedForHead(b) && b.timer.value <= now && b.last <= now
    ensures Refill(b.(timer := None), now).tokens >= 1000 * b.waiters[0].units
  {
    var wait := Max(0, b.timer.value - b.last);
    assert b.rate * wait <= b.rate * (now - b.last);
    EnoughRefill(b.(timer := None), now, 1000 * b.waiters[0].units);
  }

  /** `Serve` takes a prefix off the queue, at least one when the head can be paid for. */
  lemma {:induction false} ServeSuffix(b: Bucket) returns (k: nat)
    ensures k <= |b.waiters| && Serve(b).waiters == b.waiters[k..]
    ensures k == 0 <==> b.waiters == [] || b.tokens < 1000 * b.waiters[0].units
    decreases |b.waiters|
  {
    k := 0;
    if b.waiters != [] && b.tokens >= 1000 * b.waiters[0].units {
      var next := b.waiters[0];
      var c := b.(waiters := b.waiters[1..],
                  tokens := b.tokens - 1000 * next.units,
                  grants := b.grants + [Grant(next.id, next.units, b.last)]);
      var j := ServeSuffix(c);
      k := j + 1;
      assert b.waiters[1..][j..] == b.waiters[k..];
    }
  }

  lemma {:induction false} ServeGrants(b: Bucket)
    ensures b.grants <= Serve(b).grants
    ensures b.waiters != [] && b.tokens >= 1000 * b.waiters[0].units ==>
      Grant(b.waiters[0].id, b.waiters[0].units, b.last) in Serve(b).grants
    decreases |b.waiters|
  {
    if b.waiters != [] && b.tokens >= 1000 * b.waiters[0].units {
      var next := b.waiters[0];
      var g := Grant(next.id, next.units, b.last);
      var c := b.(waiters := b.waiters[1..],
                  tokens := b.tokens - 1000 * next.units,
                  grants := b.grants + [g]);
      ServeGrants(c);
      assert c.grants[|b.grants|] == g;
      assert Serve(c).grants[|b.grants|] == g;
    }
  }

  /** The longest wait a timer armed for a request of `units` is set for. */
  function WaitFor(rate: nat, units: nat): nat
    requires 0 < rate
  {
    Max(5, CeilDiv(1000 * units, rate))
  }

  /** The waits of a stretch of the queue, each served `late` milliseconds late at worst. */
  function Waits(rate: nat, ws: seq<Waiter>, late: nat): nat
    requires 0 < rate
  {
    if ws == [] then 0 else WaitFor(rate, ws[0].units) + late + Waits(rate, ws[1..], late)
  }

  /** When the waiter at position `k` will have been served, if no timer is later than `late`. */
  ghost function Deadline(b: Bucket, k: nat, late: nat): int
    requires Valid(b) && k < |b.waiters|
  {
    b.timer.value + late + Ahead(b.rate, ArmedForHead(b), b.waiters, k, late)
  }

  /** The waits up to position `k`, without the head's when the pending timer is the head's. */
  function Ahead(rate: nat, armed: bool, ws: seq<Waiter>, k: nat, late: nat): nat
    requires 0 < rate && k < |ws|
  {
    if armed then Waits(rate, ws[1..k + 1], late) else Waits(rate, ws[..k + 1], late)
  }

  lemma {:induction false} WaitsSplit(rate: nat, ws: seq<Waiter>, k: nat, late: nat)
    requires 0 < rate && k <= |ws|
    ensures Waits(rate, ws, late) == Waits(rate, ws[..k], late) + Waits(rate, ws[k..], late)
  {
    if k > 0 {
      WaitsSplit(rate, ws[1..], k - 1, late);
      assert ws[..k][1..] == ws[1..][..k - 1];
      assert ws[1..][k - 1..] == ws[k..];
    } else {
      assert ws[..0] == [] && ws[0..] == ws;
    }
  }

  /** Timers fire, and fire no more than `late` milliseconds after they are due; the clock
      does not run backwards. */
  ghost predicate Punctual(b: Bucket, e: Event, late: nat)
    requires Valid(b)
  {
    match e
    case Look(now) => b.last <= now && (b.timer.Some? ==> now <= b.timer.value + late)
    case Request(now, _, _) => b.last <= now && (b.timer.Some? ==> now <= b.timer.value + late)
    case Cancel(_) => true
    case TimerFires(now) => b.last <= now && b.timer.Some? && b.timer.value <= now <= b.timer.value + late
  }

  ghost predicate PunctualRun(b: Bucket, events: seq<Event>, late: nat)
    requires Valid(b)
    decreases events
  {
    events == [] ||
    (Punctual(b, events[0], late)
     && (StepValid(b, events[0]); PunctualRun(Step(b, events[0]), events[1..], late)))
  }

  lemma {:induction false} WaitsPositive(rate: nat, ws: seq<Waiter>, k: nat, late: nat)
    requires 0 < rate && 0 < k <= |ws|
    ensures Waits(rate, ws[1..k], late) <= Waits(rate, ws[..k], late)
  {
    assert ws[..k][1..] == ws[1..k];
  }

  /** Dropping the first `j` entries, or one entry, shortens the waits. */
  lemma WaitsSuffix(rate: nat, ws: seq<Waiter>, j: nat, late: nat)
    requires 0 < rate && j <= |ws|
    ensures Waits(rate, ws[j..], late) <= Waits(rate, ws, late)
  {
    WaitsSplit(rate, ws, j, late);
  }

  lemma WaitsWithout(rate: nat, ws: seq<Waiter>, j: nat, late: nat)
    requires 0 < rate && j < |ws|
    ensures Waits(rate, ws[..j] + ws[j + 1..], late) <= Waits(rate, ws, late)
  {
    WaitsSplit(rate, ws, j, late);
    var shorter := ws[..j] + ws[j + 1..];
    WaitsSplit(rate, shorter, j, late);
    assert shorter[..j] == ws[..j] && shorter[j..] == ws[j + 1..];
    assert ws[j..][1..] == ws[j + 1..];
  }

  lemma RefillKeepsArmed(b: Bucket, now: int)
    requires Valid(b) && ArmedForHead(b)
    ensures ArmedForHead(Refill(b, now))
  {
    var due := b.timer.value;
    if b.last < now {
      var r := Refill(b, now);
      if now < due {
        Product(b.rate, now - b.last, due - b.last);
      } else {
        Monotone(b.rate, Max(0, due - b.last), now - b.last);
      }
      Monotone(b.rate, 0, Max(0, due - r.last));
    }
  }

  /** A timer set for the head is long enough, and no longer than `WaitFor` says. */
  lemma ScheduleArms(b: Bucket)
    requires Sound(b) && b.timer.None? && b.waiters != []
    ensures ArmedForHead(Schedule(b, b.last))
    ensures Schedule(b, b.last).timer.value <= b.last + WaitFor(b.rate, b.waiters[0].units)
  {
    var units := b.waiters[0].units;
    var deficit: nat := Max(0, 1000 * units - b.tokens);
    CeilDivCovers(deficit, b.rate);
    CeilDivMonotone(deficit, 1000 * units, b.rate);
    Monotone(b.rate, CeilDiv(deficit, b.rate), WaitMs(b, units));
  }

  lemma CeilDivCovers(x: nat, y: nat)
    requires 0 < y
    ensures x <= y * CeilDiv(x, y)
  {}

  lemma CeilDivMonotone(x: nat, x': nat, y: nat)
    requires 0 < y && x <= x'
    ensures CeilDiv(x, y) <= CeilDiv(x', y)
  {
    var q, q' := CeilDiv(x, y), CeilDiv(x', y);
    if q' < q {
      CeilDivCovers(x', y);
      assert y * (q - 1) < x by {
        assert x + y - 1 == y * q + (x + y - 1) % y;
      }
      Monotone(y, q', q - 1);
    }
  }

  lemma QuietDeadline(b: Bucket, c: Bucket, k: nat, late: nat)
    requires Valid(b) && Valid(c) && k < |b.waiters| <= |c.waiters|
    requires c.waiters[..|b.waiters|] == b.waiters && c.timer == b.timer && c.rate == b.rate
    requires ArmedForHead(b) ==> ArmedForHead(c)
    ensures Deadline(c, k, late) <= Deadline(b, k, late)
  {
    assert c.waiters[..k + 1] == b.waiters[..k + 1];
    assert c.waiters[1..k + 1] == b.waiters[1..k + 1];
    WaitsPositive(b.rate, b.waiters, k + 1, late);
  }

  lemma RequestDeadline(b: Bucket, now: int, units: nat, signalAborted: bool, k: nat, late: nat)
    requires Valid(b) && k < |b.waiters|
    ensures Valid(Acquire(b, now, units, signalAborted).0)
    ensures b.waiters <= Acquire(b, now, units, signalAborted).0.waiters
    ensures Deadline(Acquire(b, now, units, signalAborted).0, k, late) <= Deadline(b, k, late)
  {
    var c := Acquire(b, now, units, signalAborted).0;
    AcquireValid(b, now, units, signalAborted);
    if ArmedForHead(b) { RefillKeepsArmed(b, now); }
    QuietDeadline(b, c, k, late);
  }

  lemma AheadWithout(rate: nat, armed: bool, armed': bool, ws: seq<Waiter>, j: nat, k: nat, late: nat)
    requires 0 < rate && j < |ws| && k < |ws| && j != k
    requires j > 0 ==> armed' == armed
    ensures var k' := if k < j then k else k - 1;
      Ahead(rate, armed', ws[..j] + ws[j + 1..], k', late) <= Ahead(rate, armed, ws, k, late)
  {
    var shorter := ws[..j] + ws[j + 1..];
    if k < j {
      SlicesBefore(ws, j, k);
    } else if j == 0 {
      SlicesAfter(ws, 0, k);
      assert ws[..0] + ws[1..k + 1] == ws[1..k + 1];
      WaitsPositive(rate, ws, k + 1, late);
      WaitsPositive(rate, shorter, k, late);
    } else if armed {
      var prefix := ws[1..k + 1];
      assert prefix[..j - 1] == ws[1..j] && prefix[j..] == ws[j + 1..k + 1];
      TailAfter(ws, j, k);
      WaitsWithout(rate, prefix, j - 1, late);
    } else {
      var prefix := ws[..k + 1];
      assert prefix[..j] == ws[..j] && prefix[j + 1..] == ws[j + 1..k + 1];
      SlicesAfter(ws, j, k);
      WaitsWithout(rate, prefix, j, late);
    }
  }

  lemma SlicesBefore(ws: seq<Waiter>, j: nat, k: nat)
    requires k < j < |ws|
    ensures (ws[..j] + ws[j + 1..])[..k + 1] == ws[..k + 1]
    ensures (ws[..j] + ws[j + 1..])[1..k + 1] == ws[1..k + 1]
  {
    var shorter := ws[..j] + ws[j + 1..];
    assert forall i | 0 <= i <= k :: shorter[i] == ws[i];
  }

  lemma SlicesAfter(ws: seq<Waiter>, j: nat, k: nat)
    requires j <= k < |ws|
    ensures (ws[..j] + ws[j + 1..])[..k] == ws[..j] + ws[j + 1..k + 1]
  {
    var a, b := (ws[..j] + ws[j + 1..])[..k], ws[..j] + ws[j + 1..k + 1];
    forall i | 0 <= i < k ensures a[i] == b[i] {
      assert a[i] == if i < j then ws[i] else ws[i + 1];
    }
  }

  lemma TailAfter(ws: seq<Waiter>, j: nat, k: nat)
    requires 0 < j <= k < |ws|
    ensures (ws[..j] + ws[j + 1..])[1..k] == ws[1..j] + ws[j + 1..k + 1]
  {
    SlicesAfter(ws, j, k);
    var front := ws[..j] + ws[j + 1..k + 1];
    assert (ws[..j] + ws[j + 1..])[1..k] == front[1..];
    assert front[1..] == ws[1..j] + ws[j + 1..k + 1];
  }

  lemma CancelDeadline(b: Bucket, x: nat, id: nat, k: nat, late: nat) returns (k': nat)
    requires Valid(b) && At(b, id, k) && IsWaiting(Abort(b, x), id)
    ensures Valid(Abort(b, x)) && At(Abort(b, x), id, k')
    ensures Deadline(Abort(b, x), k', late) <= Deadline(b, k, late)
  {
    AbortValid(b, x);
    k' := k;
    if IsWaiting(b, x) {
      var j: nat :| j < |b.waiters| && b.waiters[j].id == x;
      AbortRemoves(b, x, j);
      var c := Abort(b, x);
      k' := PositionAfterRemoval(b, c, j, id, k);
      AheadWithout(b.rate, ArmedForHead(b), ArmedForHead(c), b.waiters, j, k, late);
    }
  }

  lemma PositionAfterRemoval(b: Bucket, c: Bucket, j: nat, id: nat, k: nat) returns (k': nat)
    requires Valid(b) && At(b, id, k) && j < |b.waiters|
    requires c.waiters == b.waiters[..j] + b.waiters[j + 1..] && IsWaiting(c, id)
    ensures j != k && k' == (if k < j then k else k - 1) && At(c, id, k')
  {
    k' :| k' < |c.waiters| && c.waiters[k'].id == id;
    DistinctIds(b, if k' < j then k' else k' + 1, k);
  }

  /** What a firing timer leaves: the bucket refilled, and a prefix of the queue served. */
  lemma FireServes(b: Bucket, now: int) returns (r: Bucket, served: nat)
    requires Valid(b) && b.last <= now
    ensures r == Refill(b.(timer := None), now) && Sound(Serve(r)) && Serve(r).timer.None?
    ensures Serve(r).last == now && Fire(b, now) == Schedule(Serve(r), now)
    ensures served <= |b.waiters| && Serve(r).waiters == b.waiters[served..]
    ensures ArmedForHead(b) && b.timer.value <= now ==> 0 < served
  {
    r := Refill(b.(timer := None), now);
    assert r.(timer := Some(0)) == Refill(b.(timer := Some(0)), now);
    FifoOf(b, b.(timer := Some(0)));
    RefillValid(b.(timer := Some(0)), now);
    ServeSound(r);
    served := ServeSuffix(r);
    if ArmedForHead(b) && b.timer.value <= now {
      Monotone(b.rate, Max(0, b.timer.value - b.last), now - b.last);
      EnoughRefill(b.(timer := None), now, 1000 * b.waiters[0].units);
    }
  }

  lemma AheadAfterServing(rate: nat, armed: bool, ws: seq<Waiter>, served: nat, k: nat, late: nat)
    requires 0 < rate && served <= k < |ws| && (armed ==> 0 < served)
    ensures WaitFor(rate, ws[served].units) + late + Ahead(rate, true, ws[served..], k - served, late)
      <= Ahead(rate, armed, ws, k, late)
  {
    var rest := ws[served..k + 1];
    assert ws[served..][1..k - served + 1] == rest[1..];
    WaitsSuffix(rate, ws[..k + 1], served, late);
    assert ws[..k + 1][served..] == rest;
    if armed {
      WaitsSuffix(rate, ws[1..k + 1], served - 1, late);
      assert ws[1..k + 1][served - 1..] == rest;
    }
  }

  lemma PositionAfterServing(b: Bucket, c: Bucket, served: nat, id: nat, k: nat) returns (k': nat)
    requires Fifo(b) && At(b, id, k) && served <= |b.waiters| && c.waiters == b.waiters[served..] && IsWaiting(c, id)
    ensures At(c, id, k') && k == served + k'
  {
    k' :| k' < |c.waiters| && c.waiters[k'].id == id;
    DistinctIds(b, served + k', k);
  }

  lemma FireDeadline(b: Bucket, now: int, id: nat, k: nat, late: nat) returns (k': nat)
    requires Valid(b) && At(b, id, k) && Punctual(b, TimerFires(now), late)
    requires IsWaiting(Fire(b, now), id)
    ensures Valid(Fire(b, now)) && At(Fire(b, now), id, k')
    ensures Deadline(Fire(b, now), k', late) <= Deadline(b, k, late)
    ensures Fire(b, now).last == now <= Fire(b, now).timer.value
  {
    FireValid(b, now);
    var r, served := FireServes(b, now);
    k' := PositionAfterServing(b, Fire(b, now), served, id, k);
    ScheduleArms(Serve(r));
    AheadAfterServing(b.rate, ArmedForHead(b), b.waiters, served, k, late);
  }

  /** No punctual step moves a waiter's deadline back, or happens after it. */
  lemma StepDeadline(b: Bucket, e: Event, id: nat, k: nat, late: nat) returns (k': nat)
    requires Valid(b) && At(b, id, k) && Punctual(b, e, late) && b.last <= b.timer.value + late
    requires IsWaiting(Step(b, e), id)
    ensures Valid(Step(b, e)) && At(Step(b, e), id, k')
    ensures Deadline(Step(b, e), k', late) <= Deadline(b, k, late)
    ensures Step(b, e).last <= Deadline(b, k, late)
    ensures Step(b, e).last <= Step(b, e).timer.value + late
  {
    StepValid(b, e);
    k' := k;
    match e
    case Look(now) =>
      if ArmedForHead(b) { RefillKeepsArmed(b, now); }
      QuietDeadline(b, Step(b, e), k, late);
    case Request(now, units, signalAborted) =>
      RequestDeadline(b, now, units, signalAborted, k, late);
    case Cancel(x) => k' := CancelDeadline(b, x, id, k, late);
    case TimerFires(now) =>
      k' := FireDeadline(b, now, id, k, late);
  }

  lemma WaitedBeforeAbort(b: Bucket, x: nat, id: nat)
    requires Valid(b) && IsWaiting(Abort(b, x), id)
    ensures IsWaiting(b, id)
  {
    if IsWaiting(b, x) {
      var c := Abort(b, x);
      var i: nat :| i < |c.waiters| && c.waiters[i].id == id;
      var j: nat :| j < |b.waiters| && b.waiters[j].id == x;
      AbortRemoves(b, x, j);
      assert b.waiters[if i < j then i else i + 1].id == id;
    }
  }

  lemma WaitedBeforeTimer(b: Bucket, now: int, id: nat)
    requires Valid(b) && b.timer.Some? && IsWaiting(Step(b, TimerFires(now)), id)
    ensures IsWaiting(b, id)
  {
    var c := Step(b, TimerFires(now));
    var i: nat :| i < |c.waiters| && c.waiters[i].id == id;
    var j := ServeSuffix(Refill(b.(timer := None), now));
    assert b.waiters[j + i].id == id;
  }

  lemma WaitedBefore(b: Bucket, e: Event, id: nat)
    requires Valid(b) && id < b.arrived && IsWaiting(Step(b, e), id)
    ensures IsWaiting(b, id)
  {
    match e
    case Cancel(x) => WaitedBeforeAbort(b, x, id);
    case TimerFires(now) => if b.timer.Some? { WaitedBeforeTimer(b, now, id); }
    case _ =>
      var c := Step(b, e);
      var i: nat :| i < |c.waiters| && c.waiters[i].id == id;
      assert i < |b.waiters| && b.waiters[i].id == id;
  }

  /** A request that is no longer waiting never waits again. */
  lemma {:induction false} NeverWaitsAgain(b: Bucket, events: seq<Event>, id: nat)
    requires Valid(b) && id < b.arrived && !IsWaiting(b, id)
    ensures !IsWaiting(Run(b, events), id)
    decreases events
  {
    if events != [] {
      var e := events[0];
      StepValid(b, e);
      ArrivedGrows(b, e);
      if IsWaiting(Step(b, e), id) { WaitedBefore(b, e, id); }
      NeverWaitsAgain(Step(b, e), events[1..], id);
    }
  }

  /** Over every punctual run, a request still waiting is within its deadline. */
  lemma {:induction false} WaitingMeansInTime(b: Bucket, events: seq<Event>, id: nat, k: nat, late: nat)
    requires Valid(b) && At(b, id, k) && PunctualRun(b, events, late)
    requires b.last <= b.timer.value + late
    requires IsWaiting(Run(b, events), id)
    ensures Run(b, events).last <= Deadline(b, k, late)
    decreases events
  {
    if events != [] {
      var e := events[0];
      StepValid(b, e);
      WaiterId(b, k);
      assert id in Order(b);
      ArrivedGrows(b, e);
      if !IsWaiting(Step(b, e), id) {
        NeverWaitsAgain(Step(b, e), events[1..], id);
      }
      var k' := StepDeadline(b, e, id, k, late);
      WaitingMeansInTime(Step(b, e), events[1..], id, k', late);
    }
  }

  lemma ArrivedGrows(b: Bucket, e: Event)
    requires 0 < b.rate
    ensures b.arrived <= Step(b, e).arrived
  {}

  /** No timer is ever armed for longer than a full bucket takes to refill. */
  ghost predicate TimerInReach(b: Bucket)
    requires 0 < b.rate
  {
    b.timer.Some? ==> b.timer.value <= b.last + LongestWait(b)
  }

  lemma FireTimerInReach(b: Bucket, now: int)
    requires Valid(b) && TimerInReach(b) && b.timer.Some?
    ensures TimerInReach(Step(b, TimerFires(now)))
  {
    var r := Refill(b.(timer := None), now);
    assert r.(timer := Some(0)) == Refill(b.(timer := Some(0)), now);
    FifoOf(b, b.(timer := Some(0)));
    RefillValid(b.(timer := Some(0)), now);
    ServeSound(r);
    if Serve(r).waiters != [] {
      CeilDivMonotone(Max(0, 1000 * Serve(r).waiters[0].units - Serve(r).tokens), 1000 * b.capacity, b.rate);
    }
  }

  lemma StepTimerInReach(b: Bucket, e: Event)
    requires Valid(b) && TimerInReach(b)
    ensures TimerInReach(Step(b, e))
  {
    StepValid(b, e);
    match e
    case Look(now) => RefillTokens(b, now);
    case Request(now, units, signalAborted) =>
      RefillTokens(b, now);
      if units <= b.capacity && !signalAborted {
        var r := Refill(b, now);
        CeilDivMonotone(Max(0, 1000 * units - r.tokens), 1000 * b.capacity, b.rate);
      }
    case Cancel(id) =>
    case TimerFires(now) => if b.timer.Some? { FireTimerInReach(b, now); }
  }

  lemma {:induction false} RunTimerInReach(b: Bucket, events: seq<Event>)
    requires Valid(b) && TimerInReach(b)
    ensures TimerInReach(Run(b, events))
    decreases events
  {
    if events != [] {
      StepValid(b, events[0]);
      StepTimerInReach(b, events[0]);
      RunTimerInReach(Step(b, events[0]), events[1..]);
    }
  }

  /** Both invariants hold after every run of a new bucket. */
  lemma Reachable(capacity: nat, rate: nat, start: int, events: seq<Event>)
    requires 0 < rate
    ensures Valid(Fresh(capacity, rate, start))
    ensures Valid(Run(Fresh(capacity, rate, start), events)) && TimerInReach(Run(Fresh(capacity, rate, start), events))
  {
    FreshValid(capacity, rate, start);
    RunTimerInReach(Fresh(capacity, rate, start), events);
  }

  /** Every request that queues is served or aborted within one full refill plus the waits
      of the requests ahead of it and its own, provided timers are at most `late` late. */
  lemma Fairness(b: Bucket, now: int, units: nat, after: seq<Event>, late: nat)
    requires Valid(b) && TimerInReach(b) && Punctual(b, Request(now, units, false), late)
    requires Acquire(b, now, units, false).1 == Queued
    ensures Valid(Step(b, Request(now, units, false)))
    ensures PunctualRun(Step(b, Request(now, units, false)), after, late) ==>
      var end := Run(Step(b, Request(now, units, false)), after);
      IsWaiting(end, b.arrived) ==>
        end.last <= now + LongestWait(b) + late + Waits(b.rate, b.waiters + [Waiter(b.arrived, units)], late)
  {
    var c := Step(b, Request(now, units, false));
    StepValid(b, Request(now, units, false));
    StepTimerInReach(b, Request(now, units, false));
    var k := |b.waiters|;
    assert At(c, b.arrived, k);
    assert c.waiters[..k + 1] == b.waiters + [Waiter(b.arrived, units)];
    WaitsPositive(b.rate, c.waiters, k + 1, late);
    if PunctualRun(c, after, late) && IsWaiting(Run(c, after), b.arrived) {
      WaitingMeansInTime(c, after, b.arrived, k, late);
    }
  }

  // ---- What one operation does, from the numbers alone ----

  /** The tokens there are at `now`: what was left, and what came since, up to the capacity. */
  function TokensAt(capacity: nat, rate: nat, tokens: int, last: int, now: int): int {
    if now <= last then tokens else Min(1000 * capacity, tokens + rate * (now - last))
  }

  /** A wait in whole milliseconds, at least five, and no longer than a deficit needs. */
  predicate RightWait(wait: int, deficit: int, rate: nat) {
    wait >= 5 && rate * wait >= deficit && (wait == 5 || rate * (wait - 1) < deficit)
  }

  lemma WaitIsRight(b: Bucket, units: nat)
    requires 0 < b.rate
    ensures RightWait(WaitMs(b, units), 1000 * units - b.tokens, b.rate)
  {
    var deficit := Max(0, 1000 * units - b.tokens);
    var wait := CeilDiv(deficit, b.rate);
    CeilDivCovers(deficit, b.rate);
    CeilDivTight(deficit, b.rate);
    Monotone(b.rate, wait, WaitMs(b, units));
  }

  lemma CeilDivTight(x: nat, y: nat)
    requires 0 < y
    ensures CeilDiv(x, y) > 0 ==> y * (CeilDiv(x, y) - 1) < x
  {
    assert x + y - 1 == y * CeilDiv(x, y) + (x + y - 1) % y;
    Product(y, CeilDiv(x, y), 1);
  }

  /** A request is refused when it exceeds the capacity, or else when its signal is set; granted
      when nobody waits and the tokens cover it; and otherwise made to wait as the last one. */
  lemma AcquireDecides(b: Bucket, now: int, units: nat, signalAborted: bool)
    requires Valid(b)
    ensures var tokens := TokensAt(b.capacity, b.rate, b.tokens, b.last, now);
      var c, outcome := Acquire(b, now, units, signalAborted).0, Acquire(b, now, units, signalAborted).1;
      && (outcome == TooLarge <==> units > b.capacity)
      && (outcome == AlreadyAborted <==> units <= b.capacity && signalAborted)
      && (outcome == Granted <==> units <= b.capacity && !signalAborted && b.waiters == [] && tokens >= 1000 * units)
      && (outcome == TooLarge || outcome == AlreadyAborted ==> c == b)
      && (outcome == Granted ==>
            c.tokens == tokens - 1000 * units && c.waiters == [] && c.timer == b.timer
            && c.grants == b.grants + [Grant(b.arrived, units, Max(b.last, now))])
      && (outcome == Queued ==>
            c.tokens == tokens && c.grants == b.grants && c.waiters == b.waiters + [Waiter(b.arrived, units)]
            && c.timer.Some? && (b.timer.Some? ==> c.timer == b.timer)
            && (b.timer.None? ==> RightWait(c.timer.value - now, 1000 * c.waiters[0].units - tokens, b.rate)))
  {
    var r := Refill(b, now);
    if units <= b.capacity && !signalAborted && !(r.waiters == [] && r.tokens >= 1000 * units) && b.timer.None? {
      var queued := r.(waiters := r.waiters + [Waiter(r.arrived, units)], arrived := r.arrived + 1);
      WaitIsRight(queued, queued.waiters[0].units);
    }
  }

  function UnitsOf(ws: seq<Waiter>): nat {
    if ws == [] then 0 else ws[0].units + UnitsOf(ws[1..])
  }

  /** The grants of some waiters, in order. */
  function GrantsOf(ws: seq<Waiter>, at: int): seq<Grant> {
    seq(|ws|, i requires 0 <= i < |ws| => Grant(ws[i].id, ws[i].units, at))
  }

  /** Draining grants a prefix of the queue, pays for it, and stops only at a head it cannot
      pay. */
  lemma {:induction false} ServePrefix(b: Bucket) returns (k: nat)
    ensures k <= |b.waiters| && Serve(b).waiters == b.waiters[k..]
    ensures Serve(b).tokens == b.tokens - 1000 * UnitsOf(b.waiters[..k])
    ensures Serve(b).grants == b.grants + GrantsOf(b.waiters[..k], b.last)
    decreases |b.waiters|
  {
    k := 0;
    assert b.waiters[..0] == [] && b.waiters[0..] == b.waiters;
    if b.waiters != [] && b.tokens >= 1000 * b.waiters[0].units {
      var next, rest := b.waiters[0], b.waiters[1..];
      var c := b.(waiters := rest, tokens := b.tokens - 1000 * next.units,
                  grants := b.grants + [Grant(next.id, next.units, b.last)]);
      var j := ServePrefix(c);
      k := j + 1;
      assert rest[j..] == b.waiters[k..];
      assert b.waiters[..k] == [next] + rest[..j];
      assert GrantsOf(b.waiters[..k], b.last) == [Grant(next.id, next.units, b.last)] + GrantsOf(rest[..j], b.last);
    }
  }

  /** A queue taken up to some waiter, with the tokens that were there. */
  ghost predicate Drained(was: seq<Waiter>, tokens: int, waiters: seq<Waiter>, left: int, grants: seq<Grant>, at: int) {
    exists k: nat :: k <= |was| && waiters == was[k..] && left == tokens - 1000 * UnitsOf(was[..k])
      && grants == GrantsOf(was[..k], at)
      && (waiters == [] || left < 1000 * waiters[0].units)
  }

  // ---- The class ----

  /** The bucket as the program keeps it; the history fields exist only for the proofs. */
  class TokenBucket {
    const capacity: nat
    const refillPerSecond: nat
    var tokens: int
    var lastRefillMs: int
    var waiters: seq<Waiter>
    var timer: Option<int>
    var arrivals: nat
    ghost var grants: seq<Grant>
    ghost var aborted: set<nat>

    ghost function State(): Bucket
      reads this
    {
      Bucket(capacity, refillPerSecond, tokens, lastRefillMs, waiters, timer, arrivals, grants, aborted)
    }

    constructor (capacity: nat, refillPerSecond: nat, now: int)
      requires 0 < refillPerSecond
      ensures State() == Fresh(capacity, refillPerSecond, now) && Valid(State())
    {
      this.capacity, this.refillPerSecond := capacity, refillPerSecond;
      tokens, lastRefillMs := 1000 * capacity, now;
      waiters, timer, arrivals := [], None, 0;
      grants, aborted := [], {};
      new;
      FreshValid(capacity, refillPerSecond, now);
    }

    method RefillTo(now: int)
      modifies this`tokens, this`lastRefillMs
      ensures State() == Refill(old(State()), now)
      ensures tokens == TokensAt(capacity, refillPerSecond, old(tokens), old(lastRefillMs), now)
      ensures lastRefillMs == Max(old(lastRefillMs), now)
    {
      var elapsedMs := now - lastRefillMs;
      if elapsedMs <= 0 { return; }
      tokens := Min(1000 * capacity, tokens + refillPerSecond * elapsedMs);
      lastRefillMs := now;
    }

    method Available(now: int) returns (available: int)
      requires Valid(State())
      modifies this`tokens, this`lastRefillMs
      ensures State() == Step(old(State()), Look(now)) && Valid(State())
      ensures available == tokens == TokensAt(capacity, refillPerSecond, old(tokens), old(lastRefillMs), now)
    {
      StepValid(State(), Look(now));
      RefillTo(now);
      available := tokens;
    }

    method ArmTimer(now: int)
      requires 0 < refillPerSecond
      modifies this`timer
      ensures State() == Schedule(old(State()), now)
      ensures old(timer).Some? || waiters == [] ==> timer == old(timer)
      ensures old(timer).None? && waiters != [] ==>
        timer.Some? && RightWait(timer.value - now, 1000 * waiters[0].units - tokens, refillPerSecond)
    {
      if timer.Some? { return; }
      if waiters == [] { return; }
      var deficit := Max(0, 1000 * waiters[0].units - tokens);
      WaitIsRight(State(), waiters[0].units);
      timer := Some(now + Max(5, CeilDiv(deficit, refillPerSecond)));
    }

    /** Waits are promises; what the caller learns at once is whether it has to wait. */
    method AcquireUnits(now: int, units: nat, signalAborted: bool) returns (outcome: Outcome)
      requires Valid(State())
      modifies this
      ensures State() == Step(old(State()), Request(now, units, signalAborted)) && Valid(State())
      ensures outcome == TooLarge <==> units > capacity
      ensures outcome == AlreadyAborted <==> units <= capacity && signalAborted
      ensures outcome == Granted <==>
        units <= capacity && !signalAborted && old(waiters) == []
        && TokensAt(capacity, refillPerSecond, old(tokens), old(lastRefillMs), now) >= 1000 * units
      ensures outcome == TooLarge || outcome == AlreadyAborted ==> State() == old(State())
      ensures outcome == Granted ==>
        tokens == TokensAt(capacity, refillPerSecond, old(tokens), old(lastRefillMs), now) - 1000 * units
        && waiters == [] && grants == old(grants) + [Grant(old(arrivals), units, lastRefillMs)]
      ensures outcome == Queued ==>
        tokens == TokensAt(capacity, refillPerSecond, old(tokens), old(lastRefillMs), now)
        && waiters == old(waiters) + [Waiter(old(arrivals), units)] && grants == old(grants)
        && timer.Some? && (old(timer).Some? ==> timer == old(timer))
        && (old(timer).None? ==> RightWait(timer.value - now, 1000 * waiters[0].units - tokens, refillPerSecond))
      ensures outcome == Acquire(old(State()), now, units, signalAborted).1
    {
      AcquireDecides(State(), now, units, signalAborted);
      StepValid(State(), Request(now, units, signalAborted));
      if units > capacity { return TooLarge; }
      if signalAborted { return AlreadyAborted; }
      RefillTo(now);
      var id := arrivals;
      arrivals := arrivals + 1;
      if waiters == [] && tokens >= 1000 * units {
        tokens := tokens - 1000 * units;
        grants := grants + [Grant(id, units, lastRefillMs)];
        return Granted;
      }
      waiters := waiters + [Waiter(id, units)];
      ArmTimer(now);
      return Queued;
    }

    /** The abort listener: find the waiter, splice it out. */
    method OnAbort(id: nat)
      requires Valid(State())
      modifies this`waiters, this`aborted
      ensures State() == Step(old(State()), Cancel(id)) && Valid(State())
    {
      StepValid(State(), Cancel(id));
      var index := 0;
      while index < |waiters| && waiters[index].id != id
        invariant 0 <= index <= |waiters|
        invariant forall i | 0 <= i < index :: waiters[i].id != id
      {
        index := index + 1;
      }
      if index < |waiters| {
        AbortRemoves(State(), id, index);
        waiters := waiters[..index] + waiters[index + 1..];
        aborted := aborted + {id};
      }
    }

    method Drain(now: int)
      requires 0 < refillPerSecond
      modifies this
      ensures State() == Schedule(Serve(Refill(old(State()), now)), now)
      ensures old(grants) <= grants
      ensures Drained(old(waiters), TokensAt(capacity, refillPerSecond, old(tokens), old(lastRefillMs), now),
                      waiters, tokens, grants[|old(grants)|..], lastRefillMs)
      ensures waiters != [] ==> timer.Some?
    {
      RefillTo(now);
      ghost var filled := State();
      ghost var k := ServePrefix(filled);
      while |waiters| > 0
        invariant Serve(State()) == Serve(Refill(old(State()), now))
        decreases |waiters|
      {
        var next := waiters[0];
        if tokens < 1000 * next.units { break; }
        waiters := waiters[1..];
        tokens := tokens - 1000 * next.units;
        grants := grants + [Grant(next.id, next.units, lastRefillMs)];
      }
      assert State() == Serve(State());
      ArmTimer(now);
      assert grants[|old(grants)|..] == GrantsOf(filled.waiters[..k], lastRefillMs);
    }

    /** The timer's callback. */
    method OnTimer(now: int)
      requires Valid(State()) && timer.Some?
      modifies this
      ensures State() == Step(old(State()), TimerFires(now)) && Valid(State())
      ensures old(grants) <= grants
      ensures Drained(old(waiters), TokensAt(capacity, refillPerSecond, old(tokens), old(lastRefillMs), now),
                      waiters, tokens, grants[|old(grants)|..], lastRefillMs)
    {
      ghost var was := State();
      timer := None;
      Drain(now);
      FiresAs(was, now, State());
    }
  }
}
