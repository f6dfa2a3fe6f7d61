/** Scheduled send (`apps/api/src/services/schedule.ts`): the row is the source of truth and
    a queue job is only a trigger.

    The state machine below takes one database statement or one provider call at a time.
    Workers, cancels, sweeps, lost and duplicated jobs and crashes interleave in any order;
    the queue is an adversary that may start a job for any row at any time. `calls` is the
    ghost record of provider sends. Times are milliseconds.
 */
module Schedule {
  import opened Common
  import opened Queue
  import opened Timezone

  datatype Status = SCHEDULED | SENDING | SENT | FAILED | CANCELLED

  datatype Row = Row(
    status: Status, sendAt: int, localSendAt: Option<int>, timezone: nat,
    recipientsParse: bool, demo: bool, attempts: nat)

  /** The zone rules in force: what the platform's tz database says today. */
  type Rules = map<nat, Zone>

  /** Where a worker stands between two awaits of `runScheduledSend`. */
  datatype Pc =
    | Loaded(id: nat, row: Row, now: int, rules: Rules)
    | Corrected(id: nat, resolved: int, now: int)
    | Claimed(id: nat, row: Row, now: int, rules: Rules)
    | Delivered(id: nat)
    | Failing(id: nat)

  /** One request to the provider's send endpoint. */
  datatype Call = Call(id: nat, at: int, row: Row, rules: Rules)

  datatype World = World(
    rows: map<nat, Row>, created: set<nat>, queue: map<nat, JobState>,
    workers: map<nat, Pc>, clock: int, calls: seq<Call>)

  const SWEEP_LEAD_MS := 30_000
  const SWEEP_BATCH := 200

  /** What the provider's one attempt comes to. `Rejected` covers everything thrown before
      the request is made: quota, token, threading lookup. `Lost` is a request that was made
      and whose answer never came, so nobody knows whether the mail went out. */
  datatype Attempt = Accepted | Lost | Rejected

  /** A database write can be applied and still be reported as failed. */
  datatype Write = Applied | AppliedButErrored | NotApplied

  datatype Event =
    | Create(id: nat, row: Row)
    | Start(worker: nat, id: nat, rules: Rules)
    | Proceed(worker: nat)
    | Requeue(worker: nat, redisFails: bool)
    | Send(worker: nat, attempt: Attempt)
    | RecordSent(worker: nat, write: Write)
    | RecordFailed(worker: nat, write: Write)
    | Crash(worker: nat)
    | Cancel(id: nat)
    | Delete(id: nat)
    | QueueTo(id: nat, state: Option<JobState>)
    | Wait(ms: nat)

  /** The wall time as an instant under `rules`; none when the zone is unknown. */
  function Resolve(row: Row, rules: Rules): Option<int>
    requires row.localSendAt.Some?
  {
    if row.timezone in rules then
      Some(60_000 * ZonedWallTimeToUtc(rules[row.timezone], row.localSendAt.value))
    else None
  }

  function Drop(s: World, worker: nat): World {
    s.(workers := s.workers - {worker})
  }

  function Move(s: World, worker: nat, pc: Pc): World {
    s.(workers := s.workers[worker := pc])
  }

  function SetStatus(s: World, id: nat, status: Status): World {
    if id in s.rows then s.(rows := s.rows[id := s.rows[id].(status := status)]) else s
  }

  /** `enqueueScheduledSend`: a job that is not finished keeps its id occupied. */
  function Enqueue(queue: map<nat, JobState>, id: nat, delayed: bool): (map<nat, JobState>, bool) {
    if id in queue && queue[id] != Completed && queue[id] != Failed then (queue, false)
    else (queue[id := if delayed then Delayed else Waiting], true)
  }

  /** A job under the row's id still has to end. */
  predicate Busy(queue: map<nat, JobState>, id: nat) {
    id in queue && queue[id] in {Waiting, Delayed, Active}
  }

  /** How many of the rows get a job they did not have. */
  function NewJobs(queue: map<nat, JobState>, ids: seq<nat>): nat {
    if ids == [] then 0
    else NewJobs(queue, ids[..|ids| - 1]) + if Busy(queue, ids[|ids| - 1]) then 0 else 1
  }

  /** The conditional `SCHEDULED -> SENDING` update, and what the winner goes on with. */
  function Claim(s: World, worker: nat, pc: Pc): World
    requires pc.Loaded?
  {
    if pc.id in s.rows && s.rows[pc.id].status == SCHEDULED then
      var row := s.rows[pc.id];
      Move(s.(rows := s.rows[pc.id := row.(status := SENDING, attempts := row.attempts + 1)]),
           worker, Claimed(pc.id, pc.row, pc.now, pc.rules))
    else Drop(s, worker)
  }

  /** The part of `runScheduledSend` between reading the row and sending it. */
  function AfterLoad(s: World, worker: nat, pc: Pc): World
    requires pc.Loaded?
  {
    if pc.row.localSendAt.None? then Claim(s, worker, pc)
    else
      match Resolve(pc.row, pc.rules)
      case None => Drop(s, worker)
      case Some(resolved) =>
        if resolved - pc.now > SWEEP_LEAD_MS then
          var t := if pc.id in s.rows && s.rows[pc.id].status == SCHEDULED
                   then s.(rows := s.rows[pc.id := s.rows[pc.id].(sendAt := resolved)]) else s;
          Move(t, worker, Corrected(pc.id, resolved, pc.now))
        else Claim(s, worker, pc)
  }

  function Attempted(s: World, worker: nat, pc: Pc, attempt: Attempt): World
    requires pc.Claimed?
  {
    var called := s.(calls := s.calls + [Call(pc.id, s.clock, pc.row, pc.rules)]);
    if !pc.row.recipientsParse || attempt.Rejected? then Move(s, worker, Failing(pc.id))
    else if attempt.Accepted? then Move(called, worker, Delivered(pc.id))
    else Move(called, worker, Failing(pc.id))
  }

  /** One step; an event that does not apply to its worker's position changes nothing. */
  function Step(s: World, e: Event): World {
    match e
    case Create(id, row) =>
      if id in s.created then s
      else s.(rows := s.rows[id := row.(status := SCHEDULED, attempts := 0)], created := s.created + {id})
    case Start(worker, id, rules) =>
      if worker in s.workers || id !in s.rows || s.rows[id].demo || s.rows[id].status != SCHEDULED then s
      else Move(s, worker, Loaded(id, s.rows[id], s.clock, rules))
    case Proceed(worker) =>
      if worker in s.workers && s.workers[worker].Loaded? then AfterLoad(s, worker, s.workers[worker]) else s
    case Requeue(worker, redisFails) =>
      if worker in s.workers && s.workers[worker].Corrected? then
        var pc := s.workers[worker];
        var queue := if redisFails then s.queue else Enqueue(s.queue, pc.id, pc.resolved > pc.now).0;
        Drop(s.(queue := queue), worker)
      else s
    case Send(worker, attempt) =>
      if worker in s.workers && s.workers[worker].Claimed? then Attempted(s, worker, s.workers[worker], attempt)
      else s
    case RecordSent(worker, write) =>
      if worker in s.workers && s.workers[worker].Delivered? then
        var id := s.workers[worker].id;
        var t := if write.NotApplied? then s else SetStatus(s, id, SENT);
        if write.Applied? && id in s.rows then Drop(t, worker) else Move(t, worker, Failing(id))
      else s
    case RecordFailed(worker, write) =>
      if worker in s.workers && s.workers[worker].Failing? then
        Drop(if write.NotApplied? then s else SetStatus(s, s.workers[worker].id, FAILED), worker)
      else s
    case Crash(worker) => Drop(s, worker)
    case Cancel(id) =>
      if id in s.rows && s.rows[id].status == SCHEDULED then SetStatus(s, id, CANCELLED) else s
    case Delete(id) => s.(rows := s.rows - {id})
    case QueueTo(id, state) =>
      s.(queue := if state.Some? then s.queue[id := state.value] else s.queue - {id})
    case Wait(ms) => s.(clock := s.clock + ms)
  }

  function Run(s: World, events: seq<Event>): World
    decreases events
  {
    if events == [] then s else Run(Step(s, events[0]), events[1..])
  }

  /** What goes on around the workers: rows are made and deleted, workers die, jobs appear in any
      state or get lost, time passes. */
  lemma Surroundings(s: World, worker: nat, id: nat, row: Row, state: Option<JobState>, ms: nat)
    ensures id !in s.created ==>
      Step(s, Create(id, row)).rows == s.rows[id := row.(status := SCHEDULED, attempts := 0)]
      && id in Step(s, Create(id, row)).created
    ensures id in s.created ==> Step(s, Create(id, row)) == s
    ensures Step(s, Delete(id)).rows == s.rows - {id}
    ensures Step(s, Crash(worker)).workers == s.workers - {worker} && Step(s, Crash(worker)).rows == s.rows
    ensures var queue := Step(s, QueueTo(id, state)).queue;
      && (id in queue <==> state.Some?) && (state.Some? ==> queue[id] == state.value)
      && forall other: nat | other != id :: (other in queue <==> other in s.queue) && (other in queue ==> queue[other] == s.queue[other])
    ensures Step(s, Wait(ms)).clock == s.clock + ms
  {}

  function Empty(clock: int): World {
    World(map[], {}, map[], map[], clock, [])
  }

  lemma {:induction false} RunConcat(s: World, a: seq<Event>, b: seq<Event>)
    ensures Run(s, a + b) == Run(Run(s, a), b)
    decreases a
  {
    if a == [] {
      assert a + b == b;
    } else {
      assert (a + b)[1..] == a[1..] + b;
      RunConcat(Step(s, a[0]), a[1..], b);
    }
  }

  // ---- At most once ----

  function CallsFor(calls: seq<Call>, id: nat): nat {
    if calls == [] then 0
    else CallsFor(calls[..|calls| - 1], id) + if calls[|calls| - 1].id == id then 1 else 0
  }

  /** A worker that has claimed its row and not finished with it. */
  ghost predicate Owns(s: World, worker: nat, id: nat) {
    && worker in s.workers && s.workers[worker].id == id
    && (s.workers[worker].Claimed? || s.workers[worker].Delivered? || s.workers[worker].Failing?)
  }

  ghost predicate Owned(s: World, id: nat) {
    exists worker: nat :: Owns(s, worker, id)
  }

  ghost predicate RowOk(s: World, id: nat) {
    && (id in s.rows ==> id in s.created)
    && CallsFor(s.calls, id) <= 1
    && (id in s.rows && s.rows[id].status in {SCHEDULED, CANCELLED} ==>
        CallsFor(s.calls, id) == 0 && !Owned(s, id))
    && (id in s.rows && s.rows[id].status == SENT ==> CallsFor(s.calls, id) == 1)
    && (id !in s.created ==> CallsFor(s.calls, id) == 0 && !Owned(s, id))
  }

  ghost predicate WorkerOk(s: World, worker: nat)
    requires worker in s.workers
  {
    var pc := s.workers[worker];
    && (Owns(s, worker, pc.id) ==> forall other: nat | Owns(s, other, pc.id) :: other == worker)
    && (pc.Loaded? ==> pc.id in s.created)
    && (pc.Claimed? ==> CallsFor(s.calls, pc.id) == 0)
    && (pc.Delivered? ==> CallsFor(s.calls, pc.id) == 1)
    && (pc.Claimed? && pc.id in s.rows ==> s.rows[pc.id].status == SENDING)
    && (pc.Delivered? && pc.id in s.rows ==> s.rows[pc.id].status == SENDING)
    && (pc.Failing? && pc.id in s.rows ==> s.rows[pc.id].status in {SENDING, SENT})
  }

  ghost predicate Inv(s: World) {
    && (forall id: nat :: RowOk(s, id))
    && (forall worker: nat | worker in s.workers :: WorkerOk(s, worker))
  }

  lemma CallAdded(calls: seq<Call>, c: Call, id: nat)
    ensures CallsFor(calls + [c], id) == CallsFor(calls, id) + if c.id == id then 1 else 0
  {
    assert (calls + [c])[..|calls|] == calls;
  }

  /** Steps that make no call, take over no row and touch no status. */
  lemma QuietInv(s: World, t: World)
    requires Inv(s)
    requires t.calls == s.calls && t.created == s.created
    requires forall id: nat | id in t.rows :: id in s.rows && t.rows[id].status == s.rows[id].status
    requires forall worker: nat | worker in t.workers ::
      (worker in s.workers && t.workers[worker] == s.workers[worker])
      || (t.workers[worker].Loaded? && t.workers[worker].id in s.created)
      || t.workers[worker].Corrected?
    ensures Inv(t)
  {
    assert forall worker: nat, id: nat | Owns(t, worker, id) :: Owns(s, worker, id);
    forall id: nat ensures RowOk(t, id) {
      assert RowOk(s, id);
    }
    forall worker: nat | worker in t.workers ensures WorkerOk(t, worker) {
      if worker in s.workers { assert WorkerOk(s, worker); }
    }
  }

  /** The owner of a row moves on to `pc` (or leaves), and the row's status and calls with it. */
  lemma {:induction false} OwnerInv(s: World, worker: nat, id: nat, t: World)
    requires Inv(s) && Owns(s, worker, id)
    requires t.created == s.created && t.rows.Keys <= s.rows.Keys
    requires forall other: nat | other != worker :: other in t.workers <==> other in s.workers
    requires forall other: nat | other != worker && other in t.workers :: t.workers[other] == s.workers[other]
    requires forall other: nat | other != id :: CallsFor(t.calls, other) == CallsFor(s.calls, other)
    requires forall other: nat | other != id && other in t.rows :: t.rows[other] == s.rows[other]
    requires worker in t.workers ==> t.workers[worker].id == id && !t.workers[worker].Loaded?
    requires worker in t.workers ==> WorkerOk(t, worker)
    requires CallsFor(t.calls, id) <= 1
    requires id in t.rows ==> t.rows[id].status in {SENDING, SENT, FAILED}
    requires id in t.rows && t.rows[id].status == SENT ==> CallsFor(t.calls, id) == 1
    ensures Inv(t)
  {
    assert forall other: nat, x: nat | Owns(t, other, x) :: Owns(s, other, x) || (other == worker && x == id);
    assert RowOk(s, id);
    forall x: nat ensures RowOk(t, x) {
      assert RowOk(s, x);
    }
    forall other: nat | other in t.workers ensures WorkerOk(t, other) {
      if other != worker { assert WorkerOk(s, other); }
    }
  }

  lemma CreateInv(s: World, id: nat, row: Row)
    requires Inv(s)
    ensures Inv(Step(s, Create(id, row)))
  {
    var t := Step(s, Create(id, row));
    assert forall worker: nat, x: nat :: Owns(t, worker, x) <==> Owns(s, worker, x);
    forall x: nat ensures RowOk(t, x) { assert RowOk(s, x); }
    forall worker: nat | worker in t.workers ensures WorkerOk(t, worker) {
      assert WorkerOk(s, worker);
      if Owns(s, worker, id) { assert RowOk(s, id); }
    }
  }

  lemma CancelInv(s: World, id: nat)
    requires Inv(s)
    ensures Inv(Step(s, Cancel(id)))
  {
    var t := Step(s, Cancel(id));
    assert forall worker: nat, x: nat :: Owns(t, worker, x) <==> Owns(s, worker, x);
    forall x: nat ensures RowOk(t, x) { assert RowOk(s, x); }
    forall worker: nat | worker in t.workers ensures WorkerOk(t, worker) {
      assert WorkerOk(s, worker);
      if Owns(s, worker, id) { assert RowOk(s, id); }
    }
  }

  /** A claim takes a row nobody owns and nobody has called for. */
  lemma ClaimInv(s: World, worker: nat, pc: Pc)
    requires Inv(s) && worker in s.workers && s.workers[worker] == pc && pc.Loaded?
    ensures Inv(Claim(s, worker, pc))
  {
    var t := Claim(s, worker, pc);
    assert WorkerOk(s, worker) && RowOk(s, pc.id);
    if worker in t.workers {
      assert forall other: nat, x: nat | Owns(t, other, x) :: Owns(s, other, x) || (other == worker && x == pc.id);
      forall x: nat ensures RowOk(t, x) { assert RowOk(s, x); }
      forall other: nat | other in t.workers ensures WorkerOk(t, other) {
        assert WorkerOk(s, other);
      }
    } else {
      QuietInv(s, t);
    }
  }

  lemma SendCalls(s: World, worker: nat, attempt: Attempt, id: nat)
    requires worker in s.workers && s.workers[worker].Claimed?
    ensures var was, now := CallsFor(s.calls, id), CallsFor(Step(s, Send(worker, attempt)).calls, id);
      was <= now <= was + 1 && (id != s.workers[worker].id ==> now == was)
      && (id == s.workers[worker].id && Step(s, Send(worker, attempt)).workers[worker].Delivered? ==> now == was + 1)
  {
    var pc := s.workers[worker];
    CallAdded(s.calls, Call(pc.id, s.clock, pc.row, pc.rules), id);
  }

  lemma SendWorker(s: World, worker: nat, attempt: Attempt)
    requires Inv(s) && worker in s.workers && s.workers[worker].Claimed?
    ensures var t := Step(s, Send(worker, attempt)); var id := s.workers[worker].id;
      worker in t.workers && t.workers[worker].id == id && !t.workers[worker].Loaded? && WorkerOk(t, worker)
      && CallsFor(t.calls, id) <= 1
  {
    var pc := s.workers[worker];
    assert WorkerOk(s, worker) && Owns(s, worker, pc.id) && RowOk(s, pc.id);
    SendCalls(s, worker, attempt, pc.id);
    OnlyOwner(s, Step(s, Send(worker, attempt)), worker, pc.id);
  }

  lemma SendInv(s: World, worker: nat, attempt: Attempt)
    requires Inv(s) && worker in s.workers && s.workers[worker].Claimed?
    ensures Inv(Step(s, Send(worker, attempt)))
  {
    var pc := s.workers[worker];
    var t := Step(s, Send(worker, attempt));
    SendWorker(s, worker, attempt);
    forall x: nat | x != pc.id ensures CallsFor(t.calls, x) == CallsFor(s.calls, x) {
      SendCalls(s, worker, attempt, x);
    }
    assert WorkerOk(s, worker);
    OwnerInv(s, worker, pc.id, t);
  }

  lemma OnlyOwner(s: World, t: World, worker: nat, id: nat)
    requires Inv(s) && Owns(s, worker, id)
    requires forall other: nat | other != worker && other in t.workers ::
      other in s.workers && t.workers[other] == s.workers[other]
    ensures forall other: nat | Owns(t, other, id) :: other == worker
  {
    assert WorkerOk(s, worker);
    forall other: nat | Owns(t, other, id) ensures other == worker {
      if other != worker { assert Owns(s, other, id); }
    }
  }

  lemma RecordSentInv(s: World, worker: nat, write: Write)
    requires Inv(s) && worker in s.workers && s.workers[worker].Delivered?
    ensures Inv(Step(s, RecordSent(worker, write)))
  {
    var t, id := Step(s, RecordSent(worker, write)), s.workers[worker].id;
    assert WorkerOk(s, worker) && Owns(s, worker, id) && RowOk(s, id);
    OnlyOwner(s, t, worker, id);
    OwnerInv(s, worker, id, t);
  }

  lemma RecordFailedInv(s: World, worker: nat, write: Write)
    requires Inv(s) && worker in s.workers && s.workers[worker].Failing?
    ensures Inv(Step(s, RecordFailed(worker, write)))
  {
    var t, id := Step(s, RecordFailed(worker, write)), s.workers[worker].id;
    assert WorkerOk(s, worker) && Owns(s, worker, id) && RowOk(s, id);
    OnlyOwner(s, t, worker, id);
    OwnerInv(s, worker, id, t);
  }

  lemma RecordInv(s: World, e: Event)
    requires Inv(s) && (e.RecordSent? || e.RecordFailed?)
    ensures Inv(Step(s, e))
  {
    match e
    case RecordSent(w, write) => if w in s.workers && s.workers[w].Delivered? { RecordSentInv(s, w, write); }
    case RecordFailed(w, write) => if w in s.workers && s.workers[w].Failing? { RecordFailedInv(s, w, write); }
    case _ =>
  }

  lemma StepInv(s: World, e: Event)
    requires Inv(s)
    ensures Inv(Step(s, e))
  {
    match e
    case Create(id, row) => CreateInv(s, id, row);
    case Start(worker, id, rules) => assert RowOk(s, id); QuietInv(s, Step(s, e));
    case Proceed(worker) =>
      if worker in s.workers && s.workers[worker].Loaded? {
        var pc := s.workers[worker];
        ClaimInv(s, worker, pc);
        if AfterLoad(s, worker, pc) != Claim(s, worker, pc) { QuietInv(s, Step(s, e)); }
      }
    case Send(worker, attempt) =>
      if worker in s.workers && s.workers[worker].Claimed? { SendInv(s, worker, attempt); }
    case RecordSent(_, _) => RecordInv(s, e);
    case RecordFailed(_, _) => RecordInv(s, e);
    case Cancel(id) => CancelInv(s, id);
    case _ => QuietInv(s, Step(s, e));
  }

  lemma {:induction false} RunInv(s: World, events: seq<Event>)
    requires Inv(s)
    ensures Inv(Run(s, events))
    decreases events
  {
    if events != [] {
      StepInv(s, events[0]);
      RunInv(Step(s, events[0]), events[1..]);
    }
  }

  /** Over every interleaving the provider is asked to send a row at most once; a row still
      SCHEDULED, or CANCELLED, was never asked for, and a SENT row exactly once. */
  lemma AtMostOnce(clock: int, events: seq<Event>, id: nat)
    ensures var s := Run(Empty(clock), events);
      && CallsFor(s.calls, id) <= 1
      && (id in s.rows && s.rows[id].status in {SCHEDULED, CANCELLED} ==> CallsFor(s.calls, id) == 0)
      && (id in s.rows && s.rows[id].status == SENT ==> CallsFor(s.calls, id) == 1)
  {
    RunInv(Empty(clock), events);
    assert RowOk(Run(Empty(clock), events), id);
  }

  ghost predicate StillScheduled(s: World, id: nat) {
    id in s.rows && s.rows[id].status == SCHEDULED
  }

  /** A row that has left SCHEDULED, by any path, never returns to it. */
  lemma {:induction false} NeverRescheduled(s: World, events: seq<Event>, id: nat)
    requires id in s.created && !StillScheduled(s, id)
    ensures id in Run(s, events).created && !StillScheduled(Run(s, events), id)
    decreases events
  {
    if events != [] {
      NeverRescheduled(Step(s, events[0]), events[1..], id);
    }
  }

  // ---- Never early ----

  ghost predicate NotEarly(row: Row, rules: Rules, at: int) {
    row.localSendAt.Some? ==>
      Resolve(row, rules).Some? && Resolve(row, rules).value <= at + SWEEP_LEAD_MS
  }

  /** `row` is a reading of the stored row `id`: its wall time and zone never change. */
  ghost predicate ReadingOf(s: World, id: nat, row: Row) {
    id in s.rows ==> s.rows[id].localSendAt == row.localSendAt && s.rows[id].timezone == row.timezone
  }

  ghost predicate OnTime(s: World) {
    && (forall id: nat | id in s.rows :: id in s.created)
    && (forall worker: nat | worker in s.workers && s.workers[worker].Loaded? ::
          var pc := s.workers[worker];
          pc.id in s.created && pc.now <= s.clock && ReadingOf(s, pc.id, pc.row))
    && (forall worker: nat | worker in s.workers && s.workers[worker].Claimed? ::
          var pc := s.workers[worker];
          pc.id in s.created && ReadingOf(s, pc.id, pc.row) && NotEarly(pc.row, pc.rules, s.clock))
    && (forall c | c in s.calls :: c.id in s.created && ReadingOf(s, c.id, c.row) && NotEarly(c.row, c.rules, c.at))
  }

  ghost predicate SameWall(s: World, t: World, id: nat)
    requires id in t.rows
  {
    id in s.rows && t.rows[id].localSendAt == s.rows[id].localSendAt && t.rows[id].timezone == s.rows[id].timezone
  }

  predicate Reading(pc: Pc) {
    pc.Loaded? || pc.Claimed?
  }

  ghost predicate JustLoaded(s: World, pc: Pc) {
    pc.Loaded? && pc.now == s.clock && pc.id in s.rows && pc.row == s.rows[pc.id]
  }

  ghost predicate Calling(s: World, c: Call) {
    exists worker: nat :: worker in s.workers && s.workers[worker].Claimed?
      && c == Call(s.workers[worker].id, s.clock, s.workers[worker].row, s.workers[worker].rules)
  }

  /** Rows keep their wall time, workers their readings, and calls come from claims. */
  lemma KeepsOnTime(s: World, t: World)
    requires OnTime(s) && s.clock <= t.clock && s.created <= t.created
    requires forall id: nat | id in t.rows :: id in t.created
    requires forall id: nat | id in t.rows && id in s.created :: SameWall(s, t, id)
    requires forall worker: nat | worker in t.workers && Reading(t.workers[worker]) ::
               (worker in s.workers && t.workers[worker] == s.workers[worker]) || JustLoaded(s, t.workers[worker])
    requires forall c | c in t.calls :: c in s.calls || Calling(s, c)
    ensures OnTime(t)
  {
    assert forall id: nat, row: Row | id in s.created && ReadingOf(s, id, row) :: ReadingOf(t, id, row);
    forall c | c in t.calls
      ensures c.id in t.created && ReadingOf(t, c.id, c.row) && NotEarly(c.row, c.rules, c.at)
    {
      assert ReadingOf(s, c.id, c.row);
    }
  }

  lemma ClaimOnTime(s: World, worker: nat, pc: Pc)
    requires OnTime(s) && worker in s.workers && s.workers[worker] == pc && pc.Loaded?
    requires NotEarly(pc.row, pc.rules, pc.now)
    ensures OnTime(Claim(s, worker, pc))
  {
    var t := Claim(s, worker, pc);
    assert forall id: nat, row: Row | ReadingOf(s, id, row) :: ReadingOf(t, id, row);
  }

  lemma ProceedOnTime(s: World, worker: nat, pc: Pc)
    requires OnTime(s) && worker in s.workers && s.workers[worker] == pc && pc.Loaded?
    ensures OnTime(AfterLoad(s, worker, pc))
  {
    if NotEarly(pc.row, pc.rules, pc.now) {
      ClaimOnTime(s, worker, pc);
    } else {
      KeepsOnTime(s, AfterLoad(s, worker, pc));
    }
  }

  lemma SendOnTime(s: World, worker: nat, attempt: Attempt)
    requires OnTime(s)
    ensures OnTime(Step(s, Send(worker, attempt)))
  {
    var t := Step(s, Send(worker, attempt));
    if worker in s.workers && s.workers[worker].Claimed? {
      var pc := s.workers[worker];
      assert Calling(s, Call(pc.id, s.clock, pc.row, pc.rules));
    }
    forall c | c in t.calls ensures c in s.calls || Calling(s, c) {}
    forall w: nat | w in t.workers && Reading(t.workers[w])
      ensures w in s.workers && t.workers[w] == s.workers[w] {}
    KeepsOnTime(s, t);
  }

  lemma RecordOnTime(s: World, e: Event)
    requires OnTime(s) && (e.RecordSent? || e.RecordFailed?)
    ensures OnTime(Step(s, e))
  {
    KeepsOnTime(s, Step(s, e));
  }

  lemma StepOnTime(s: World, e: Event)
    requires OnTime(s)
    ensures OnTime(Step(s, e))
  {
    match e
    case Proceed(worker) =>
      if worker in s.workers && s.workers[worker].Loaded? {
        var pc := s.workers[worker];
        ProceedOnTime(s, worker, pc);
      }
    case Send(worker, attempt) => SendOnTime(s, worker, attempt);
    case RecordSent(_, _) => RecordOnTime(s, e);
    case RecordFailed(_, _) => RecordOnTime(s, e);
    case Create(_, _) => KeepsOnTime(s, Step(s, e));
    case Start(_, _, _) => KeepsOnTime(s, Step(s, e));
    case Cancel(_) => KeepsOnTime(s, Step(s, e));
    case _ => KeepsOnTime(s, Step(s, e));
  }

  lemma {:induction false} RunOnTime(s: World, events: seq<Event>)
    requires OnTime(s)
    ensures OnTime(Run(s, events))
    decreases events
  {
    if events != [] {
      StepOnTime(s, events[0]);
      RunOnTime(Step(s, events[0]), events[1..]);
    }
  }

  /** No provider call is made more than thirty seconds before the row's own wall time, as
      the zone rules its job ran under read it. */
  lemma NeverEarly(clock: int, events: seq<Event>, c: Call)
    requires c in Run(Empty(clock), events).calls
    ensures var s := Run(Empty(clock), events);
      && (c.id in s.rows ==> s.rows[c.id].localSendAt == c.row.localSendAt && s.rows[c.id].timezone == c.row.timezone)
      && (c.row.localSendAt.Some? ==>
            c.row.timezone in c.rules
            && 60_000 * ZonedWallTimeToUtc(c.rules[c.row.timezone], c.row.localSendAt.value) - SWEEP_LEAD_MS <= c.at)
  {
    RunOnTime(Empty(clock), events);
  }

  // ---- Recoverable from the row alone ----

  predicate Due(row: Row, now: int) {
    row.status == SCHEDULED && !row.demo && row.sendAt <= now + SWEEP_LEAD_MS
  }

  function DueIds(s: World): set<nat> {
    set id | id in s.rows && Due(s.rows[id], s.clock)
  }

  /** Whether the job of a row can read its wall time at all. */
  predicate Resolvable(row: Row, rules: Rules) {
    row.localSendAt.Some? ==> row.timezone in rules
  }

  predicate Pending(rows: map<nat, Row>, id: nat) {
    id in rows && !rows[id].demo && rows[id].status == SCHEDULED
  }

  /** The row's wall time is more than the sweep's lead away. */
  predicate Ahead(row: Row, rules: Rules, now: int) {
    row.localSendAt.Some? && row.timezone in rules && Resolve(row, rules).value - now > SWEEP_LEAD_MS
  }

  /** A SCHEDULED row whose zone resolves and whose time has come. */
  predicate DueJob(rows: map<nat, Row>, id: nat, rules: Rules, now: int) {
    Pending(rows, id) && Resolvable(rows[id], rules) && !Ahead(rows[id], rules, now)
  }

  /** One job for the row, run from its start up to its send or its reschedule. */
  function RunJob(s: World, worker: nat, id: nat, rules: Rules): World {
    Run(s, [Start(worker, id, rules), Proceed(worker)])
  }

  /** A due row's job claims it or moves it past the sweep's horizon, unless its zone cannot
      be resolved: then the job throws and the row stays due. No other row changes. */
  lemma JobEffect(s: World, worker: nat, id: nat, rules: Rules)
    requires worker !in s.workers && id in DueIds(s)
    ensures var t := RunJob(s, worker, id, rules);
      && t.rows.Keys == s.rows.Keys && t.clock == s.clock
      && (forall other: nat | other in s.rows && other != id :: t.rows[other] == s.rows[other])
      && (id in DueIds(t) <==> !Resolvable(s.rows[id], rules))
      && (id !in DueIds(t) ==>
            t.rows[id].status == SENDING || t.rows[id].sendAt > s.clock + SWEEP_LEAD_MS)
      && (id in DueIds(t) ==> t.rows == s.rows)
  {
    var a := Step(s, Start(worker, id, rules));
    assert a == Move(s, worker, Loaded(id, s.rows[id], s.clock, rules));
    var events := [Start(worker, id, rules), Proceed(worker)];
    assert events[1..] == [Proceed(worker)];
    assert Run(a, [Proceed(worker)]) == Step(a, Proceed(worker)) by {
      assert [Proceed(worker)][1..] == [];
    }
  }

  // ---- Jobs of the queue ----

  /** How the awaits of one job come out. */
  datatype Outcome = Outcome(redisFails: bool, attempt: Attempt, sent: Write, failed: Write)

  /** The statements after the claim or the correction; those that do not apply do nothing. */
  function Rest(worker: nat, o: Outcome): seq<Event> {
    [Requeue(worker, o.redisFails), Send(worker, o.attempt)] + [RecordSent(worker, o.sent), RecordFailed(worker, o.failed)]
  }

  /** The queue marks its entry active, the worker runs `runScheduledSend` to its end, and the
      queue keeps the entry as finished: failed when the job threw. */
  function JobEvents(worker: nat, id: nat, rules: Rules, o: Outcome, threw: bool): seq<Event> {
    [QueueTo(id, Some(Active))] + [Start(worker, id, rules), Proceed(worker)] + Rest(worker, o)
    + [QueueTo(id, Some(if threw then Failed else Completed))]
  }

  predicate Throws(s: World, id: nat, rules: Rules) {
    id in s.rows && !s.rows[id].demo && s.rows[id].status == SCHEDULED && !Resolvable(s.rows[id], rules)
  }

  /** A worker takes the entry of `id` from the queue, if it waits there. */
  function TakeJob(s: World, worker: nat, id: nat, rules: Rules, o: Outcome): World {
    if id in s.queue && s.queue[id] in {Waiting, Delayed} then
      Run(s, JobEvents(worker, id, rules, o, Throws(s, id, rules)))
    else s
  }

  lemma JobStages(s: World, worker: nat, id: nat, rules: Rules, o: Outcome, threw: bool)
    ensures Run(s, JobEvents(worker, id, rules, o, threw)) ==
      Step(Run(RunJob(Step(s, QueueTo(id, Some(Active))), worker, id, rules), Rest(worker, o)),
           QueueTo(id, Some(if threw then Failed else Completed)))
  {
    var begin, body := [QueueTo(id, Some(Active))], [Start(worker, id, rules), Proceed(worker)];
    var end := QueueTo(id, Some(if threw then Failed else Completed));
    RunConcat(s, begin + body + Rest(worker, o), [end]);
    RunConcat(s, begin + body, Rest(worker, o));
    RunConcat(s, begin, body);
    RunOne(s, begin[0]);
    RunOne(Run(s, begin + body + Rest(worker, o)), end);
  }

  lemma RestRuns(s: World, worker: nat, o: Outcome)
    ensures Run(s, Rest(worker, o)) ==
      Step(Step(Step(Step(s, Requeue(worker, o.redisFails)), Send(worker, o.attempt)),
                RecordSent(worker, o.sent)), RecordFailed(worker, o.failed))
  {
    RunConcat(s, [Requeue(worker, o.redisFails), Send(worker, o.attempt)],
              [RecordSent(worker, o.sent), RecordFailed(worker, o.failed)]);
    RunTwo(s, Requeue(worker, o.redisFails), Send(worker, o.attempt));
    RunTwo(Step(Step(s, Requeue(worker, o.redisFails)), Send(worker, o.attempt)),
           RecordSent(worker, o.sent), RecordFailed(worker, o.failed));
  }

  /** Without its worker, or once it has corrected the row, a job has nothing left to do: the
      entry it asks for is its own. */
  lemma RestIdle(s: World, worker: nat, id: nat, o: Outcome)
    requires worker in s.workers ==> s.workers[worker].Corrected? && s.workers[worker].id == id
    requires id in s.queue && s.queue[id] == Active
    ensures Run(s, Rest(worker, o)) == s.(workers := s.workers - {worker})
  {
    RestRuns(s, worker, o);
    var t := Step(s, Requeue(worker, o.redisFails));
    assert t == s.(workers := s.workers - {worker});
  }

  /** From the claim on the row never becomes SCHEDULED again, and nothing else is touched. */
  predicate Sending(s: World, t: World, worker: nat, id: nat)
    requires id in s.rows
  {
    && id in t.rows && t.rows == s.rows[id := t.rows[id]] && t.rows[id].status in {SENDING, SENT, FAILED}
    && t.queue == s.queue && t.clock == s.clock && t.workers - {worker} == s.workers - {worker}
  }

  lemma SendKeeps(s: World, worker: nat, id: nat, attempt: Attempt)
    requires worker in s.workers && s.workers[worker].Claimed? && s.workers[worker].id == id
    requires id in s.rows && s.rows[id].status == SENDING
    ensures var t := Step(s, Send(worker, attempt)); var pc := s.workers[worker];
      && Sending(s, t, worker, id) && t.rows == s.rows && worker in t.workers
      && t.workers[worker] == (if pc.row.recipientsParse && attempt.Accepted? then Delivered(id) else Failing(id))
      && t.calls == s.calls + if pc.row.recipientsParse && !attempt.Rejected? then [Call(id, s.clock, pc.row, pc.rules)] else []
  {}

  lemma SentKeeps(s: World, u: World, worker: nat, id: nat, write: Write)
    requires id in s.rows && Sending(s, u, worker, id)
    requires worker in u.workers && u.workers[worker] in {Delivered(id), Failing(id)}
    ensures var t := Step(u, RecordSent(worker, write)); var delivered := u.workers[worker].Delivered?;
      && Sending(s, t, worker, id) && t.calls == u.calls
      && (worker in t.workers ==> t.workers[worker] == Failing(id))
      && (worker in t.workers <==> !(delivered && write.Applied?))
      && t.rows[id].status == (if delivered && !write.NotApplied? then SENT else u.rows[id].status)
      && t.rows[id] == u.rows[id].(status := t.rows[id].status)
  {}

  lemma FailedKeeps(s: World, u: World, worker: nat, id: nat, write: Write)
    requires id in s.rows && Sending(s, u, worker, id) && (worker in u.workers ==> u.workers[worker] == Failing(id))
    ensures var t := Step(u, RecordFailed(worker, write));
      && Sending(s, t, worker, id) && worker !in t.workers && t.calls == u.calls
      && t.rows[id].status == (if worker in u.workers && !write.NotApplied? then FAILED else u.rows[id].status)
      && t.rows[id] == u.rows[id].(status := t.rows[id].status)
  {}

  /** A claimed row: one provider call exactly when its recipients parse and nothing fails
      before the call, SENT exactly when it was accepted and that could be written. */
  lemma RestSends(s: World, worker: nat, id: nat, o: Outcome)
    requires worker in s.workers && s.workers[worker].Claimed? && s.workers[worker].id == id
    requires id in s.rows && s.rows[id].status == SENDING
    ensures Sending(s, Run(s, Rest(worker, o)), worker, id)
    ensures var t := Run(s, Rest(worker, o)); var pc := s.workers[worker];
      && t.workers == s.workers - {worker} && t.rows[id] == s.rows[id].(status := t.rows[id].status)
      && t.calls == (s.calls + if pc.row.recipientsParse && !o.attempt.Rejected? then [Call(id, s.clock, pc.row, pc.rules)] else [])
      && (pc.row.recipientsParse && o.attempt.Accepted? && o.sent.Applied? ==> t.rows[id].status == SENT)
      && (!(pc.row.recipientsParse && o.attempt.Accepted? && o.sent.Applied?) && !o.failed.NotApplied? ==>
            t.rows[id].status == FAILED)
  {
    RestRuns(s, worker, o);
    SendKeeps(s, worker, id, o.attempt);
    var a := Step(s, Send(worker, o.attempt));
    SentKeeps(s, a, worker, id, o.sent);
    FailedKeeps(s, Step(a, RecordSent(worker, o.sent)), worker, id, o.failed);
    var t := Run(s, Rest(worker, o));
    assert t.workers == t.workers - {worker};
  }

  /** What a worker holds after reading a SCHEDULED row: nothing, a correction or a claim. */
  lemma AfterProceed(s: World, worker: nat, id: nat, rules: Rules)
    requires worker !in s.workers && id in s.rows && !s.rows[id].demo && s.rows[id].status == SCHEDULED
    ensures var t := RunJob(s, worker, id, rules); var row := s.rows[id];
      && t.queue == s.queue && t.clock == s.clock && t.workers - {worker} == s.workers && t.calls == s.calls
      && if !Resolvable(row, rules) then worker !in t.workers && t.rows == s.rows
         else if row.localSendAt.Some? && Resolve(row, rules).value - s.clock > SWEEP_LEAD_MS then
           worker in t.workers && t.workers[worker].Corrected? && t.workers[worker].id == id
           && t.rows == s.rows[id := row.(sendAt := Resolve(row, rules).value)]
         else
           worker in t.workers && t.workers[worker] == Claimed(id, row, s.clock, rules)
           && t.rows == s.rows[id := row.(status := SENDING, attempts := row.attempts + 1)]
  {
    RunTwo(s, Start(worker, id, rules), Proceed(worker));
    var a := Step(s, Start(worker, id, rules));
    assert a == Move(s, worker, Loaded(id, s.rows[id], s.clock, rules));
  }

  /** One job of the queue on a SCHEDULED row: it ends with its entry finished, whatever it
      asked for, and changes no other row; the row is in doubt, corrected, or sent or failed as
      the provider answered, with one call to it exactly when one could be made. */
  lemma {:induction false} JobTaken(s: World, worker: nat, id: nat, rules: Rules, o: Outcome)
    requires worker !in s.workers && id in s.rows && !s.rows[id].demo && s.rows[id].status == SCHEDULED
    requires id in s.queue && s.queue[id] in {Waiting, Delayed}
    ensures var t := TakeJob(s, worker, id, rules, o); var row := s.rows[id];
      && t.rows.Keys == s.rows.Keys && t.clock == s.clock && t.workers == s.workers
      && t.queue == s.queue[id := if Resolvable(row, rules) then Completed else Failed]
      && (forall other: nat | other in s.rows && other != id :: t.rows[other] == s.rows[other])
      && if !Resolvable(row, rules) then t.rows == s.rows
         else if row.localSendAt.Some? && Resolve(row, rules).value - s.clock > SWEEP_LEAD_MS then
           t.rows[id] == row.(sendAt := Resolve(row, rules).value)
         else
           && t.rows[id].status in {SENDING, SENT, FAILED}
           && (row.recipientsParse && o.attempt.Accepted? && o.sent.Applied? ==> t.rows[id].status == SENT)
           && (!(row.recipientsParse && o.attempt.Accepted? && o.sent.Applied?) && !o.failed.NotApplied? ==>
                 t.rows[id].status == FAILED)
    ensures var t := TakeJob(s, worker, id, rules, o); var row := s.rows[id];
      t.calls == (s.calls + if DueJob(s.rows, id, rules, s.clock) && row.recipientsParse && !o.attempt.Rejected?
                            then [Call(id, s.clock, row, rules)] else [])
  {
    var threw := Throws(s, id, rules);
    JobStages(s, worker, id, rules, o, threw);
    var a := Step(s, QueueTo(id, Some(Active)));
    AfterProceed(a, worker, id, rules);
    var u := RunJob(a, worker, id, rules);
    if worker in u.workers && u.workers[worker].Claimed? {
      RestSends(u, worker, id, o);
    } else {
      RestIdle(u, worker, id, o);
    }
    var ending := if threw then Failed else Completed;
    assert a.queue[id := ending] == s.queue[id := ending];
  }

  /** So the re-enqueue a job asks for when it corrects `sendAt` is in vain: the job's own entry
      absorbs it, and when the job ends the corrected row has no job. Only a sweep sends it. */
  lemma RequeueIsRefused(s: World, worker: nat, id: nat, rules: Rules, o: Outcome)
    requires worker !in s.workers && id in s.rows && !s.rows[id].demo && s.rows[id].status == SCHEDULED
    requires id in s.queue && s.queue[id] in {Waiting, Delayed}
    requires s.rows[id].localSendAt.Some? && s.rows[id].timezone in rules
    requires Resolve(s.rows[id], rules).value - s.clock > SWEEP_LEAD_MS
    ensures var t := TakeJob(s, worker, id, rules, o);
      && t.rows == s.rows[id := s.rows[id].(sendAt := Resolve(s.rows[id], rules).value)]
      && id in t.queue && t.queue[id] == Completed && id !in DueIds(t)
  {
    JobTaken(s, worker, id, rules, o);
    var t := TakeJob(s, worker, id, rules, o);
    assert t.rows == s.rows[id := t.rows[id]];
  }

  /** The entries of some rows, taken one after the other. */
  function TakeJobs(s: World, worker: nat, ids: seq<nat>, rules: Rules, os: nat -> Outcome): World
    decreases ids
  {
    if ids == [] then s else TakeJobs(TakeJob(s, worker, ids[0], rules, os(ids[0])), worker, ids[1..], rules, os)
  }

  ghost predicate Distinct(ids: seq<nat>) {
    forall i, j | 0 <= i < j < |ids| :: ids[i] != ids[j]
  }

  predicate Waits(queue: map<nat, JobState>, id: nat) {
    id in queue && queue[id] in {Waiting, Delayed}
  }

  /** What the jobs waiting for some due rows leave due. */
  function LeftDue(s: World, ids: seq<nat>, rules: Rules): set<nat> {
    set id | id in DueIds(s) && !(id in ids && Waits(s.queue, id) && Resolvable(s.rows[id], rules))
  }

  lemma JobLeaves(s: World, worker: nat, id: nat, rules: Rules, o: Outcome)
    requires worker !in s.workers && id in DueIds(s)
    ensures var t := TakeJob(s, worker, id, rules, o);
      && t.rows.Keys == s.rows.Keys && t.clock == s.clock && t.workers == s.workers
      && DueIds(t) == LeftDue(s, [id], rules)
      && (forall other: nat | other in s.rows && other != id :: t.rows[other] == s.rows[other])
      && (forall other: nat | other != id :: Waits(t.queue, other) <==> Waits(s.queue, other))
      && (id in DueIds(t) ==> t.rows == s.rows)
  {
    if Waits(s.queue, id) { JobTaken(s, worker, id, rules, o); }
  }

  /** Taking the entries of some due rows takes exactly those off the due list whose entry
      waited in the queue and whose zone resolves. */
  lemma {:induction false} JobsShrinkDue(s: World, worker: nat, ids: seq<nat>, rules: Rules, os: nat -> Outcome)
    requires Distinct(ids) && (forall id | id in ids :: id in DueIds(s)) && worker !in s.workers
    ensures DueIds(TakeJobs(s, worker, ids, rules, os)) == LeftDue(s, ids, rules)
    decreases ids
  {
    if ids != [] {
      var id := ids[0];
      assert id in ids;
      JobLeaves(s, worker, id, rules, os(id));
      var t := TakeJob(s, worker, id, rules, os(id));
      forall x | x in ids[1..] ensures x != id && x in DueIds(t) {
        assert x in ids;
      }
      JobsShrinkDue(t, worker, ids[1..], rules, os);
      LeftDueRest(s, t, ids, rules);
    }
  }

  lemma LeftDueRest(s: World, t: World, ids: seq<nat>, rules: Rules)
    requires ids != [] && Distinct(ids) && DueIds(t) == LeftDue(s, [ids[0]], rules)
    requires forall other: nat | other in s.rows && other != ids[0] :: other in t.rows && t.rows[other] == s.rows[other]
    requires forall other: nat | other != ids[0] :: Waits(t.queue, other) <==> Waits(s.queue, other)
    ensures LeftDue(t, ids[1..], rules) == LeftDue(s, ids, rules)
  {
    assert forall x :: x in ids <==> x == ids[0] || x in ids[1..];
    assert ids[0] !in ids[1..];
  }

  /** What one sweep selects: the oldest due rows, at most `limit` of them. */
  ghost predicate Selection(s: World, limit: nat, ids: seq<nat>) {
    && Distinct(ids) && (forall id | id in ids :: id in DueIds(s))
    && |ids| <= limit
    && (|ids| < limit ==> forall id | id in DueIds(s) :: id in ids)
    && (forall id, other | id in ids && other in DueIds(s) && other !in ids :: s.rows[id].sendAt <= s.rows[other].sendAt)
  }

  /** The queue after a sweep has asked for the job of every selected row. */
  function Asked(s: World, ids: seq<nat>): map<nat, JobState> {
    if ids == [] then s.queue
    else
      var id := ids[|ids| - 1];
      Enqueue(Asked(s, ids[..|ids| - 1]), id, id in s.rows && s.rows[id].sendAt > s.clock).0
  }

  function Swept(s: World, ids: seq<nat>): World {
    s.(queue := Asked(s, ids))
  }

  lemma EnqueueOne(queue: map<nat, JobState>, last: nat, delayed: bool, id: nat)
    ensures id != last ==> SameJob(Enqueue(queue, last, delayed).0, queue, id)
    ensures var after := Enqueue(queue, last, delayed).0;
      last in after && after[last] in {Waiting, Delayed, Active}
      && (after[last] == Active <==> last in queue && queue[last] == Active)
  {}

  /** A selected row's job waits afterwards, unless it was active: then it is left at that. */
  lemma {:induction false} AskedWaits(s: World, ids: seq<nat>, id: nat)
    ensures id !in ids ==> SameJob(Asked(s, ids), s.queue, id)
    ensures id in ids ==> (Waits(Asked(s, ids), id) <==> !(id in s.queue && s.queue[id] == Active))
    ensures id in ids ==> id in Asked(s, ids) && Asked(s, ids)[id] in {Waiting, Delayed, Active}
  {
    if ids != [] {
      var rest, last := ids[..|ids| - 1], ids[|ids| - 1];
      AskedWaits(s, rest, id);
      assert id in ids <==> id in rest || id == last by { assert ids == rest + [last]; }
      EnqueueOne(Asked(s, rest), last, last in s.rows && s.rows[last].sendAt > s.clock, id);
    }
  }

  function SetOf(ids: seq<nat>): set<nat> {
    set id | id in ids
  }

  lemma {:induction false} DistinctSize(ids: seq<nat>)
    requires Distinct(ids)
    ensures |SetOf(ids)| == |ids|
  {
    if ids != [] {
      DistinctSize(ids[1..]);
      assert SetOf(ids) == SetOf(ids[1..]) + {ids[0]};
      assert ids[0] !in ids[1..];
    }
  }

  /** One sweep, and then the jobs of its selection as the queue has them. */
  function SweepAndRun(s: World, worker: nat, ids: seq<nat>, rules: Rules, os: nat -> Outcome): World {
    TakeJobs(Swept(s, ids), worker, ids, rules, os)
  }

  /** What can keep a selected row from being recovered. */
  predicate Held(s: World, id: nat, rules: Rules) {
    id in s.rows && (!Resolvable(s.rows[id], rules) || (id in s.queue && s.queue[id] == Active))
  }

  /** Whatever the queue held, a sweep and the jobs it leaves waiting take exactly those selected
      rows off the due list that resolve and had no active job. */
  lemma {:induction false} SweepRecovers(
      s: World, limit: nat, ids: seq<nat>, worker: nat, rules: Rules, os: nat -> Outcome)
    requires Selection(s, limit, ids) && worker !in s.workers
    ensures DueIds(SweepAndRun(s, worker, ids, rules, os)) == set id | id in DueIds(s) && !(id in ids && !Held(s, id, rules))
  {
    var q := Swept(s, ids);
    JobsShrinkDue(q, worker, ids, rules, os);
    forall id: nat | id in ids ensures Waits(q.queue, id) <==> !(id in s.queue && s.queue[id] == Active) {
      AskedWaits(s, ids, id);
    }
    assert DueIds(q) == DueIds(s);
    forall id | id in DueIds(s)
      ensures id in LeftDue(q, ids, rules) <==> !(id in ids && !Held(s, id, rules))
    {}
  }

  /** So with no active job and zones that resolve, sweeping drains any backlog, `limit` rows at
      a time. */
  lemma SweepDrains(s: World, limit: nat, ids: seq<nat>, worker: nat, rules: Rules, os: nat -> Outcome)
    requires Selection(s, limit, ids) && worker !in s.workers
    requires forall id | id in ids :: !Held(s, id, rules)
    ensures var t := SweepAndRun(s, worker, ids, rules, os);
      |DueIds(t)| == |DueIds(s)| - |ids| && (|ids| < limit ==> DueIds(t) == {})
  {
    SweepRecovers(s, limit, ids, worker, rules, os);
    assert DueIds(SweepAndRun(s, worker, ids, rules, os)) == DueIds(s) - SetOf(ids);
    DistinctSize(ids);
    assert SetOf(ids) <= DueIds(s);
  }

  // ---- Sweeps that recover nothing ----

  /** The oldest due rows fill the limit, and every other due row is strictly younger. */
  ghost predicate Blocked(s: World, limit: nat, ids: seq<nat>) {
    && Distinct(ids) && |ids| == limit && (forall id | id in ids :: id in DueIds(s))
    && forall id, other | id in ids && other in DueIds(s) && other !in ids :: s.rows[id].sendAt < s.rows[other].sendAt
  }

  /** A younger row is selected only after all the oldest ones. */
  lemma YoungerComesLater(s: World, limit: nat, ids: seq<nat>, sel: seq<nat>, x: nat)
    requires Blocked(s, limit, ids) && Selection(s, limit, sel) && x in sel && x !in ids
    ensures SetOf(ids) + {x} <= SetOf(sel)
  {
    forall y | y in ids ensures y in sel {}
  }

  /** Then there is only one selection, whatever order the query breaks ties in. */
  lemma {:induction false} OneSelection(s: World, limit: nat, ids: seq<nat>, sel: seq<nat>)
    requires Blocked(s, limit, ids) && Selection(s, limit, sel)
    ensures SetOf(sel) == SetOf(ids)
  {
    var a, b := SetOf(ids), SetOf(sel);
    DistinctSize(ids);
    DistinctSize(sel);
    forall x | x in sel ensures x in ids {
      if x !in ids {
        YoungerComesLater(s, limit, ids, sel, x);
        SmallerSet(a + {x}, b);
      }
    }
    if |sel| == limit {
      assert a == b + (a - b);
    }
  }

  lemma SmallerSet(a: set<nat>, b: set<nat>)
    requires a <= b
    ensures |a| <= |b|
  {
    assert b == a + (b - a);
  }

  lemma {:induction false} StuckJobs(s: World, worker: nat, ids: seq<nat>, rules: Rules, os: nat -> Outcome)
    requires Distinct(ids) && worker !in s.workers
    requires forall id | id in ids :: id in DueIds(s) && !Resolvable(s.rows[id], rules)
    ensures var t := TakeJobs(s, worker, ids, rules, os); t.rows == s.rows && t.clock == s.clock && t.workers == s.workers
    decreases ids
  {
    if ids != [] {
      assert ids[0] in ids;
      var t := TakeJob(s, worker, ids[0], rules, os(ids[0]));
      JobLeaves(s, worker, ids[0], rules, os(ids[0]));
      assert ids[0] in DueIds(t);
      forall x | x in ids[1..] ensures x in DueIds(t) && !Resolvable(t.rows[x], rules) {
        assert x in ids;
      }
      StuckJobs(t, worker, ids[1..], rules, os);
    }
  }

  /** One sweep of many: what it selects, its jobs, and the time until the next. */
  datatype Round = Round(ids: seq<nat>, rules: Rules, os: nat -> Outcome, ms: nat)

  function AfterRound(s: World, worker: nat, r: Round): World {
    Step(SweepAndRun(s, worker, r.ids, r.rules, r.os), Wait(r.ms))
  }

  ghost predicate Rounds(s: World, worker: nat, limit: nat, rounds: seq<Round>)
    decreases rounds
  {
    rounds == []
    || (Selection(s, limit, rounds[0].ids) && Rounds(AfterRound(s, worker, rounds[0]), worker, limit, rounds[1..]))
  }

  function AfterRounds(s: World, worker: nat, rounds: seq<Round>): World
    decreases rounds
  {
    if rounds == [] then s else AfterRounds(AfterRound(s, worker, rounds[0]), worker, rounds[1..])
  }

  lemma {:induction false} StuckRound(s: World, worker: nat, limit: nat, ids: seq<nat>, r: Round)
    requires Blocked(s, limit, ids) && Selection(s, limit, r.ids) && worker !in s.workers
    requires forall id | id in ids :: !Resolvable(s.rows[id], r.rules)
    ensures SetOf(r.ids) == SetOf(ids)
    ensures var t := AfterRound(s, worker, r);
      t.rows == s.rows && t.clock == s.clock + r.ms && t.workers == s.workers && Blocked(t, limit, ids)
  {
    OneSelection(s, limit, ids, r.ids);
    forall id | id in r.ids ensures !Resolvable(s.rows[id], r.rules) {
      assert id in SetOf(r.ids);
    }
    StuckJobs(Swept(s, r.ids), worker, r.ids, r.rules, r.os);
    var t := AfterRound(s, worker, r);
    forall id, other | id in ids && other in DueIds(t) && other !in ids
      ensures t.rows[id].sendAt < t.rows[other].sendAt
    {
      assert id in DueIds(s);
    }
  }

  /** The limit of recovery: when the oldest `limit` due rows are in zones the platform does not
      know, and strictly older than the next, every later sweep selects exactly them, as time
      passes and more rows fall due, and no row is ever recovered. */
  lemma {:induction false} StuckSweep(s: World, worker: nat, limit: nat, ids: seq<nat>, rounds: seq<Round>)
    requires Blocked(s, limit, ids) && worker !in s.workers && Rounds(s, worker, limit, rounds)
    requires forall r, id | r in rounds && id in ids :: !Resolvable(s.rows[id], r.rules)
    ensures AfterRounds(s, worker, rounds).rows == s.rows
    ensures forall r | r in rounds :: SetOf(r.ids) == SetOf(ids)
    decreases rounds
  {
    if rounds != [] {
      assert rounds[0] in rounds && forall r | r in rounds[1..] :: r in rounds;
      StuckRound(s, worker, limit, ids, rounds[0]);
      StuckSweep(AfterRound(s, worker, rounds[0]), worker, limit, ids, rounds[1..]);
      forall r | r in rounds ensures SetOf(r.ids) == SetOf(ids) {
        assert r == rounds[0] || r in rounds[1..];
      }
    }
  }

  /** After an enqueue that reaches Redis the row has an unfinished job, its own or an older one. */
  lemma Enqueued(queue: map<nat, JobState>, id: nat, delayed: bool)
    ensures id in Enqueue(queue, id, delayed).0
      && Enqueue(queue, id, delayed).0[id] in {Waiting, Delayed, Active}
    ensures Enqueue(queue, id, delayed).1 <==>
      id !in queue || queue[id] in {Completed, Failed}
  {}

  // ---- The procedures, statement by statement ----

  datatype SendResult = Skipped | Rescheduled | Threw | SentOnce | SendFailed

  datatype CancelResult = NotFound | NotPending(status: Status) | LostRace | CancelledRow

  /** An event of somebody else than `me`. */
  predicate ByOthers(e: Event, me: nat) {
    match e
    case Start(w, _, _) => w != me
    case Proceed(w) => w != me
    case Requeue(w, _) => w != me
    case Send(w, _) => w != me
    case RecordSent(w, _) => w != me
    case RecordFailed(w, _) => w != me
    case Crash(w) => w != me
    case _ => true
  }

  lemma OthersLeaveMe(s: World, e: Event, me: nat)
    requires ByOthers(e, me)
    ensures me in Step(s, e).workers <==> me in s.workers
    ensures me in s.workers ==> Step(s, e).workers[me] == s.workers[me]
    ensures s.clock <= Step(s, e).clock
  {}

  lemma SentMeansCalled(s: World, events: seq<Event>, id: nat)
    requires Inv(s)
    ensures var t := Run(s, events); Inv(t) && (id in t.rows && t.rows[id].status == SENT ==> CallsFor(t.calls, id) == 1)
  {
    RunInv(s, events);
    assert RowOk(Run(s, events), id);
  }

  lemma OldestExists(rows: map<nat, Row>, ids: set<nat>) returns (oldest: nat)
    requires ids != {} && ids <= rows.Keys
    ensures oldest in ids && forall id | id in ids :: rows[oldest].sendAt <= rows[id].sendAt
  {
    oldest :| oldest in ids;
    var rest := ids - {oldest};
    assert forall id | id in ids :: id == oldest || id in rest;
    if rest != {} {
      var o := OldestExists(rows, rest);
      if rows[o].sendAt < rows[oldest].sendAt { oldest := o; }
    }
  }

  predicate SameJob(queue: map<nat, JobState>, before: map<nat, JobState>, id: nat) {
    (id in queue <==> id in before) && (id in queue ==> queue[id] == before[id])
  }

  /** Nothing else happens at any await. */
  predicate Undisturbed(gaps: seq<seq<Event>>) {
    forall i | 0 <= i < |gaps| :: gaps[i] == []
  }

  predicate DueAlone(gaps: seq<seq<Event>>, rows: map<nat, Row>, id: nat, rules: Rules, now: int) {
    Undisturbed(gaps) && DueJob(rows, id, rules, now)
  }

  /** The tables and the queue, with the calls made to the provider so far. */
  class Outbox {
    var rows: map<nat, Row>
    var created: set<nat>
    var queue: map<nat, JobState>
    var workers: map<nat, Pc>
    var clock: int
    var calls: seq<Call>

    function State(): World
      reads this
    {
      World(rows, created, queue, workers, clock, calls)
    }

    constructor (clock: int)
      ensures State() == Empty(clock) && Inv(State())
    {
      rows, created, queue, workers, calls := map[], {}, map[], map[], [];
      this.clock := clock;
    }

    /** Whatever the rest of the system does while `me` awaits. */
    method Others(me: nat, events: seq<Event>)
      requires forall e | e in events :: ByOthers(e, me)
      modifies this
      ensures State() == Run(old(State()), events)
      ensures me in workers <==> me in old(workers)
      ensures me in workers ==> workers[me] == old(workers[me])
    {
      for i := 0 to |events|
        invariant State() == Run(old(State()), events[..i])
        invariant me in workers <==> me in old(workers)
        invariant me in workers ==> workers[me] == old(workers[me])
      {
        OthersLeaveMe(State(), events[i], me);
        RunConcat(old(State()), events[..i], [events[i]]);
        assert events[..i + 1] == events[..i] + [events[i]];
        assert [events[i]][1..] == [];
        var next := Step(State(), events[i]);
        rows, created, queue := next.rows, next.created, next.queue;
        workers, clock, calls := next.workers, next.clock, next.calls;
      }
      assert events[..|events|] == events;
    }

    method EnqueueScheduledSend(id: nat, sendAt: int, now: int, redisFails: bool) returns (queued: bool)
      modifies this`queue
      ensures redisFails ==> !queued && queue == old(queue)
      ensures !redisFails ==> (queue, queued) == Enqueue(old(queue), id, sendAt > now)
      ensures queued <==> !redisFails && !Busy(old(queue), id)
      ensures queue == if queued then old(queue)[id := if sendAt > now then Delayed else Waiting] else old(queue)
    {
      var delay := if sendAt > now then sendAt - now else 0;
      if redisFails { return false; }
      if id in queue {
        if queue[id] == Completed || queue[id] == Failed { queue := queue - {id}; }
        else { return false; }
      }
      queue := queue[id := if delay > 0 then Delayed else Waiting];
      assert (old(queue) - {id})[id := queue[id]] == old(queue)[id := queue[id]];
      return true;
    }

    method CancelRow(id: nat)
      requires id in rows && rows[id].status == SCHEDULED
      modifies this`rows, this`queue
      ensures State() == Step(Step(old(State()), Cancel(id)), QueueTo(id, None))
      ensures rows == old(rows)[id := old(rows)[id].(status := CANCELLED)] && queue == old(queue) - {id}
    {
      rows := rows[id := rows[id].(status := CANCELLED)];
      queue := queue - {id};
    }

    /** `cancelScheduledEmail`: read, conditional update, then remove the job as a courtesy. */
    method CancelScheduledEmail(me: nat, id: nat, meanwhile: seq<Event>) returns (result: CancelResult, trace: seq<Event>)
      requires Inv(State()) && forall e | e in meanwhile :: ByOthers(e, me)
      modifies this
      ensures State() == Run(old(State()), trace) && Inv(State())
      ensures result == NotFound <==> id !in old(rows)
      ensures result.NotPending? ==> id in old(rows) && result.status == old(rows[id].status) != SCHEDULED
      ensures result.NotFound? || result.NotPending? ==> State() == old(State())
      ensures result == CancelledRow ==> id in rows && rows[id].status == CANCELLED && CallsFor(calls, id) == 0
      ensures result == LostRace ==> id !in rows || rows[id].status != SCHEDULED
      ensures meanwhile == [] && id in old(rows) && old(rows)[id].status == SCHEDULED ==>
        && result == CancelledRow && rows == old(rows)[id := old(rows)[id].(status := CANCELLED)]
        && queue == old(queue) - {id} && calls == old(calls) && workers == old(workers)
    {
      trace := [];
      if id !in rows { return NotFound, trace; }
      if rows[id].status != SCHEDULED { return NotPending(rows[id].status), trace; }
      var start := State();
      Others(me, meanwhile);
      RunInv(start, meanwhile);
      trace := meanwhile;
      if id !in rows || rows[id].status != SCHEDULED { return LostRace, trace; }
      ghost var before := State();
      RunTwo(before, Cancel(id), QueueTo(id, None));
      trace := Extend(start, meanwhile, [Cancel(id), QueueTo(id, None)]);
      CancelRow(id);
      RunInv(before, [Cancel(id), QueueTo(id, None)]);
      assert RowOk(State(), id);
      return CancelledRow, trace;
    }

    /** The wall time is still ahead: correct `sendAt`, then ask for the job again. */
    method Reschedule(me: nat, pc: Pc, resolved: int, redisFails: bool, meanwhile: seq<Event>)
      returns (trace: seq<Event>)
      requires me in workers && workers[me] == pc && pc.Loaded? && pc.row.localSendAt.Some?
      requires Resolve(pc.row, pc.rules) == Some(resolved) && resolved - pc.now > SWEEP_LEAD_MS
      requires forall e | e in meanwhile :: ByOthers(e, me)
      modifies this
      ensures State() == Run(old(State()), trace) && me !in workers
      ensures meanwhile == [] ==> calls == old(calls)
      ensures meanwhile == [] && pc.id in old(rows) && old(rows)[pc.id].status == SCHEDULED ==>
        rows == old(rows)[pc.id := old(rows)[pc.id].(sendAt := resolved)]
      ensures meanwhile == [] && !(pc.id in old(rows) && old(rows)[pc.id].status == SCHEDULED) ==> rows == old(rows)
      ensures meanwhile == [] ==>
        queue == if redisFails || Busy(old(queue), pc.id) then old(queue) else old(queue)[pc.id := Delayed]
    {
      var start := State();
      trace := [Proceed(me)];
      RunOne(start, Proceed(me));
      if pc.id in rows && rows[pc.id].status == SCHEDULED {
        rows := rows[pc.id := rows[pc.id].(sendAt := resolved)];
      }
      workers := workers[me := Corrected(pc.id, resolved, pc.now)];
      Others(me, meanwhile);
      trace := Extend(start, trace, meanwhile);
      trace := ExtendOne(start, trace, Requeue(me, redisFails));
      var queued := EnqueueScheduledSend(pc.id, resolved, pc.now, redisFails);
      workers := workers - {me};
    }

    /** One attempt at the provider, made at most once by construction: no loop, no retry. */
    method AttemptSend(me: nat, pc: Pc, attempt: Attempt) returns (delivered: bool)
      requires me in workers && workers[me] == pc && pc.Claimed?
      modifies this`calls, this`workers
      ensures State() == Step(old(State()), Send(me, attempt))
      ensures me in workers && workers[me] == if delivered then Delivered(pc.id) else Failing(pc.id)
      ensures delivered <==> pc.row.recipientsParse && attempt.Accepted?
      ensures !pc.row.recipientsParse || attempt.Rejected? ==> calls == old(calls)
      ensures pc.row.recipientsParse && !attempt.Rejected? ==> calls == old(calls) + [Call(pc.id, clock, pc.row, pc.rules)]
    {
      delivered := false;
      if pc.row.recipientsParse && !attempt.Rejected? {
        calls := calls + [Call(pc.id, clock, pc.row, pc.rules)];
        delivered := attempt.Accepted?;
      }
      workers := workers[me := if delivered then Delivered(pc.id) else Failing(pc.id)];
    }

    method WriteSent(me: nat, id: nat, write: Write) returns (done: bool)
      requires me in workers && workers[me] == Delivered(id)
      modifies this`rows, this`workers
      ensures State() == Step(old(State()), RecordSent(me, write))
      ensures done ==> me !in workers && id in rows && rows[id].status == SENT
      ensures !done ==> me in workers && workers[me] == Failing(id)
      ensures done <==> write.Applied? && id in old(rows)
      ensures rows == if !write.NotApplied? && id in old(rows) then old(rows)[id := old(rows)[id].(status := SENT)] else old(rows)
    {
      done := write.Applied? && id in rows;
      if !write.NotApplied? && id in rows {
        rows := rows[id := rows[id].(status := SENT)];
      }
      workers := if done then workers - {me} else workers[me := Failing(id)];
    }

    /** `markFailed`: no status guard, the row is this worker's. */
    method MarkFailed(me: nat, id: nat, write: Write)
      requires me in workers && workers[me] == Failing(id)
      modifies this`rows, this`workers
      ensures State() == Step(old(State()), RecordFailed(me, write)) && me !in workers
      ensures rows == if !write.NotApplied? && id in old(rows) then old(rows)[id := old(rows)[id].(status := FAILED)] else old(rows)
    {
      if !write.NotApplied? && id in rows {
        rows := rows[id := rows[id].(status := FAILED)];
      }
      workers := workers - {me};
    }

    /** The conditional update; losing it means somebody else has the row, or nobody may. */
    method ClaimRow(me: nat, pc: Pc) returns (won: bool)
      requires me in workers && workers[me] == pc && pc.Loaded?
      requires pc.row.localSendAt.Some? ==>
        Resolve(pc.row, pc.rules).Some? && Resolve(pc.row, pc.rules).value - pc.now <= SWEEP_LEAD_MS
      modifies this`rows, this`workers
      ensures State() == Step(old(State()), Proceed(me))
      ensures won <==> pc.id in old(rows) && old(rows)[pc.id].status == SCHEDULED
      ensures won ==> me in workers && workers[me] == Claimed(pc.id, pc.row, pc.now, pc.rules)
      ensures won ==> rows == old(rows)[pc.id := old(rows)[pc.id].(status := SENDING, attempts := old(rows)[pc.id].attempts + 1)]
      ensures !won ==> me !in workers && rows == old(rows)
    {
      won := pc.id in rows && rows[pc.id].status == SCHEDULED;
      if won {
        rows := rows[pc.id := rows[pc.id].(status := SENDING, attempts := rows[pc.id].attempts + 1)];
        workers := workers[me := Claimed(pc.id, pc.row, pc.now, pc.rules)];
      } else {
        workers := workers - {me};
      }
    }

    /** Send a claimed row once and record what happened. */
    method Deliver(me: nat, pc: Pc, attempt: Attempt, sentWrite: Write, failedWrite: Write, gaps: seq<seq<Event>>)
      returns (result: SendResult, trace: seq<Event>)
      requires me in workers && workers[me] == pc && pc.Claimed? && |gaps| == 4
      requires forall i | 0 <= i < 4 :: forall e | e in gaps[i] :: ByOthers(e, me)
      modifies this
      ensures State() == Run(old(State()), trace) && me !in workers
      ensures result == SentOnce ==> pc.id in rows && rows[pc.id].status == SENT
      ensures gaps[2] == gaps[3] == [] && pc.id in old(rows) ==>
        && (result == SentOnce <==> pc.row.recipientsParse && attempt.Accepted? && sentWrite.Applied?)
        && (result == SentOnce || result == SendFailed)
        && rows.Keys == old(rows).Keys && rows == old(rows)[pc.id := rows[pc.id]]
        && rows[pc.id] == old(rows)[pc.id].(status := rows[pc.id].status)
        && (result == SendFailed && !failedWrite.NotApplied? ==> rows[pc.id].status == FAILED)
        && (pc.row.recipientsParse && !attempt.Rejected? ==> calls == old(calls) + [Call(pc.id, old(clock), pc.row, pc.rules)])
        && (!pc.row.recipientsParse || attempt.Rejected? ==> calls == old(calls))
    {
      var start := State();
      trace := [Send(me, attempt)];
      RunOne(start, Send(me, attempt));
      var delivered := AttemptSend(me, pc, attempt);
      Others(me, gaps[2]);
      trace := Extend(start, trace, gaps[2]);
      if delivered {
        trace := ExtendOne(start, trace, RecordSent(me, sentWrite));
        var done := WriteSent(me, pc.id, sentWrite);
        if done { return SentOnce, trace; }
      }
      Others(me, gaps[3]);
      trace := Extend(start, trace, gaps[3]);
      trace := ExtendOne(start, trace, RecordFailed(me, failedWrite));
      MarkFailed(me, pc.id, failedWrite);
      return SendFailed, trace;
    }

    /** From the loaded row on: throw, correct, lose the claim, or send. */
    method WorkLoaded(me: nat, pc: Pc, attempt: Attempt, sentWrite: Write, failedWrite: Write, redisFails: bool,
                      gaps: seq<seq<Event>>)
      returns (result: SendResult, trace: seq<Event>)
      requires me in workers && workers[me] == pc && pc.Loaded? && |gaps| == 4
      requires forall i | 0 <= i < 4 :: forall e | e in gaps[i] :: ByOthers(e, me)
      modifies this
      ensures State() == Run(old(State()), trace) && me !in workers
      ensures result == SentOnce ==> pc.id in rows && rows[pc.id].status == SENT
      ensures !Resolvable(pc.row, pc.rules) ==> result == Threw && rows == old(rows) && calls == old(calls)
      ensures Undisturbed(gaps) && Pending(old(rows), pc.id) && Ahead(pc.row, pc.rules, pc.now) ==>
        result == Rescheduled && calls == old(calls)
        && rows == old(rows)[pc.id := old(rows)[pc.id].(sendAt := Resolve(pc.row, pc.rules).value)]
      ensures Undisturbed(gaps) && Pending(old(rows), pc.id) && Resolvable(pc.row, pc.rules) && !Ahead(pc.row, pc.rules, pc.now) ==>
        && (result == SentOnce <==> pc.row.recipientsParse && attempt.Accepted? && sentWrite.Applied?)
        && (result == SentOnce || result == SendFailed)
        && pc.id in rows && rows == old(rows)[pc.id := rows[pc.id]]
        && rows[pc.id] == old(rows)[pc.id].(status := rows[pc.id].status, attempts := old(rows)[pc.id].attempts + 1)
        && (result == SendFailed && !failedWrite.NotApplied? ==> rows[pc.id].status == FAILED)
        && (pc.row.recipientsParse && !attempt.Rejected? ==> calls == old(calls) + [Call(pc.id, old(clock), pc.row, pc.rules)])
        && (!pc.row.recipientsParse || attempt.Rejected? ==> calls == old(calls))
    {
      var start := State();
      if pc.row.localSendAt.Some? && pc.row.timezone !in pc.rules {
        result, trace := Threw, [Proceed(me)];
        RunOne(start, Proceed(me));
        workers := workers - {me};
      } else if pc.row.localSendAt.Some? && Resolve(pc.row, pc.rules).value - pc.now > SWEEP_LEAD_MS {
        trace := Reschedule(me, pc, Resolve(pc.row, pc.rules).value, redisFails, gaps[1]);
        result := Rescheduled;
      } else {
        result, trace := ClaimAndSend(me, pc, attempt, sentWrite, failedWrite, gaps);
      }
    }

    method ClaimAndSend(me: nat, pc: Pc, attempt: Attempt, sentWrite: Write, failedWrite: Write, gaps: seq<seq<Event>>)
      returns (result: SendResult, trace: seq<Event>)
      requires me in workers && workers[me] == pc && pc.Loaded? && |gaps| == 4
      requires Resolvable(pc.row, pc.rules) && !Ahead(pc.row, pc.rules, pc.now)
      requires forall i | 0 <= i < 4 :: forall e | e in gaps[i] :: ByOthers(e, me)
      modifies this
      ensures State() == Run(old(State()), trace) && me !in workers
      ensures result == SentOnce ==> pc.id in rows && rows[pc.id].status == SENT
      ensures Undisturbed(gaps) && Pending(old(rows), pc.id) ==>
        && (result == SentOnce <==> pc.row.recipientsParse && attempt.Accepted? && sentWrite.Applied?)
        && (result == SentOnce || result == SendFailed)
        && pc.id in rows && rows == old(rows)[pc.id := rows[pc.id]]
        && rows[pc.id] == old(rows)[pc.id].(status := rows[pc.id].status, attempts := old(rows)[pc.id].attempts + 1)
        && (result == SendFailed && !failedWrite.NotApplied? ==> rows[pc.id].status == FAILED)
        && (pc.row.recipientsParse && !attempt.Rejected? ==> calls == old(calls) + [Call(pc.id, old(clock), pc.row, pc.rules)])
        && (!pc.row.recipientsParse || attempt.Rejected? ==> calls == old(calls))
    {
      var start := State();
      trace := ExtendOne(start, [], Proceed(me));
      var won := ClaimRow(me, pc);
      if !won { return Skipped, trace; }
      Others(me, gaps[1]);
      trace := Extend(start, trace, gaps[1]);
      var rest;
      result, rest := Deliver(me, workers[me], attempt, sentWrite, failedWrite, gaps);
      trace := Extend(start, trace, rest);
    }

    /** `runScheduledSend`, with the rest of the system acting at each of its awaits. When
        nothing else goes on, the outcome is settled by the row and the provider's answer. */
    method RunScheduledSend(me: nat, id: nat, rules: Rules, attempt: Attempt,
                            sentWrite: Write, failedWrite: Write, redisFails: bool, gaps: seq<seq<Event>>)
      returns (result: SendResult, trace: seq<Event>)
      requires Inv(State()) && me !in workers && |gaps| == 4
      requires forall i | 0 <= i < 4 :: forall e | e in gaps[i] :: ByOthers(e, me)
      modifies this
      ensures State() == Run(old(State()), trace) && Inv(State()) && me !in workers
      ensures result == SentOnce ==> id in rows && rows[id].status == SENT && CallsFor(calls, id) == 1
      ensures !Pending(old(rows), id) ==> result == Skipped && rows == old(rows) && calls == old(calls)
      ensures Undisturbed(gaps) && Pending(old(rows), id) && !Resolvable(old(rows)[id], rules) ==>
        result == Threw && rows == old(rows) && calls == old(calls)
      ensures Undisturbed(gaps) && Pending(old(rows), id) && Ahead(old(rows)[id], rules, old(clock)) ==>
        result == Rescheduled && calls == old(calls)
        && rows == old(rows)[id := old(rows)[id].(sendAt := Resolve(old(rows)[id], rules).value)]
      ensures DueAlone(gaps, old(rows), id, rules, old(clock)) ==>
        && id in rows && rows == old(rows)[id := rows[id]] && old(calls) <= calls
        && rows[id] == old(rows)[id].(status := rows[id].status, attempts := old(rows)[id].attempts + 1)
      ensures DueAlone(gaps, old(rows), id, rules, old(clock)) ==>
        old(rows)[id].recipientsParse && attempt.Accepted? && sentWrite.Applied? ==>
        result == SentOnce && rows[id].status == SENT && calls == old(calls) + [Call(id, old(clock), old(rows)[id], rules)]
      ensures DueAlone(gaps, old(rows), id, rules, old(clock)) ==>
        old(rows)[id].recipientsParse && attempt.Lost? && !failedWrite.NotApplied? ==>
        result == SendFailed && rows[id].status == FAILED && calls == old(calls) + [Call(id, old(clock), old(rows)[id], rules)]
      ensures DueAlone(gaps, old(rows), id, rules, old(clock)) ==>
        (!old(rows)[id].recipientsParse || attempt.Rejected?) && !failedWrite.NotApplied? ==>
        result == SendFailed && rows[id].status == FAILED && calls == old(calls)
    {
      var start := State();
      trace := [Start(me, id, rules)];
      RunOne(start, Start(me, id, rules));
      if id !in rows || rows[id].demo || rows[id].status != SCHEDULED { return Skipped, trace; }
      var pc := Loaded(id, rows[id], clock, rules);
      workers := workers[me := pc];
      Others(me, gaps[0]);
      trace := Extend(start, trace, gaps[0]);
      var rest;
      result, rest := WorkLoaded(me, pc, attempt, sentWrite, failedWrite, redisFails, gaps);
      trace := Extend(start, trace, rest);
      SentMeansCalled(start, trace, id);
    }

    /** The sweep's query: due rows, oldest first, at most `limit`. */
    method FindDue(limit: nat) returns (ids: seq<nat>)
      ensures Selection(State(), limit, ids)
      ensures forall id | id in ids ::
        id in rows && rows[id].status == SCHEDULED && !rows[id].demo && rows[id].sendAt <= clock + 30_000
      ensures |ids| < limit ==>
        forall id | id in rows && rows[id].status == SCHEDULED && !rows[id].demo && rows[id].sendAt <= clock + 30_000 :: id in ids
    {
      ids := [];
      var remaining := set id | id in rows && Due(rows[id], clock);
      while |ids| < limit && remaining != {}
        invariant Distinct(ids) && |ids| <= limit
        invariant forall id | id in ids :: id in DueIds(State()) && id !in remaining
        invariant forall id | id in DueIds(State()) :: id in ids || id in remaining
        invariant remaining <= DueIds(State())
        invariant forall id, other | id in ids && other in remaining :: rows[id].sendAt <= rows[other].sendAt
        decreases remaining
      {
        ghost var o := OldestExists(rows, remaining);
        var next :| next in remaining && forall id | id in remaining :: rows[next].sendAt <= rows[id].sendAt;
        ids := ids + [next];
        remaining := remaining - {next};
      }
    }

    /** `sweepDueScheduledEmails`: every selected row ends up with an unfinished job. */
    method SweepDueScheduledEmails(limit: nat) returns (ids: seq<nat>, queued: nat)
      modifies this`queue
      ensures Selection(old(State()), limit, ids)
      ensures State() == Swept(old(State()), ids)
      ensures forall id | id in ids :: id in queue && queue[id] in {Waiting, Delayed, Active}
      ensures forall id: nat | id !in ids :: SameJob(queue, old(queue), id)
      ensures queued == NewJobs(old(queue), ids)
    {
      ids := FindDue(limit);
      queued := 0;
      ghost var start := State();
      for i := 0 to |ids|
        invariant queued == NewJobs(old(queue), ids[..i])
        invariant State() == Swept(start, ids[..i])
      {
        assert ids[i] in ids;
        assert ids[i] !in ids[..i];
        AskedWaits(start, ids[..i], ids[i]);
        var added := EnqueueScheduledSend(ids[i], rows[ids[i]].sendAt, clock, false);
        if added { queued := queued + 1; }
        assert ids[..i + 1][..i] == ids[..i];
      }
      assert ids[..|ids|] == ids;
      forall id: nat ensures id !in ids ==> SameJob(queue, old(queue), id)
        ensures id in ids ==> id in queue && queue[id] in {Waiting, Delayed, Active}
      {
        AskedWaits(start, ids, id);
      }
    }
  }

  lemma RunOne(s: World, e: Event)
    ensures Run(s, [e]) == Step(s, e)
  {
    assert [e][1..] == [];
  }

  lemma RunTwo(s: World, e: Event, f: Event)
    ensures Run(s, [e, f]) == Step(Step(s, e), f)
  {
    assert [e, f][1..] == [f];
    RunOne(Step(s, e), f);
  }

  /** Traces grow at the end. */
  function Extend(s: World, trace: seq<Event>, more: seq<Event>): (longer: seq<Event>)
    ensures longer == trace + more && Run(s, longer) == Run(Run(s, trace), more)
  {
    RunConcat(s, trace, more);
    trace + more
  }

  function ExtendOne(s: World, trace: seq<Event>, e: Event): (longer: seq<Event>)
    ensures longer == trace + [e] && Run(s, longer) == Step(Run(s, trace), e)
  {
    RunConcat(s, trace, [e]);
    RunOne(Run(s, trace), e);
    trace + [e]
  }
}
