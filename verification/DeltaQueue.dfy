/** The delta job of one mailbox (`apps/api/src/services/deltaSync.ts`, `queueWorkers.ts`): the
    mailbox with the queue entry under its job id. A delta runs only inside the active job, and
    whoever wants another one asks the same queue, the running delta included.
 */
module DeltaQueue {
  import opened Common
  import opened Queue
  import opened HistoryFold
  import opened Mirror
  import D = DeltaSync

  /** What `queue.getState` answers for a job that still has to end. */
  predicate Unfinished(job: Option<JobState>) {
    job.Some? && job.value in {Waiting, Delayed, Active}
  }

  function AfterAsk(job: Option<JobState>): Option<JobState> {
    if Unfinished(job) then job else Some(Delayed)
  }

  /** `enqueueDelta`: an unfinished job under the mailbox's id absorbs the request, and a queue
      that cannot be reached answers as if it had. */
  method EnqueueDelta(job: Option<JobState>, redisFails: bool) returns (after: Option<JobState>, queued: bool)
    ensures queued <==> !Unfinished(job) && !redisFails
    ensures after == if redisFails then job else AfterAsk(job)
    ensures !redisFails ==> Unfinished(after)
  {
    after := job;
    if redisFails { return job, false; }
    if job.Some? {
      if job.value == Waiting || job.value == Delayed || job.value == Active { return job, false; }
      after := None;
    }
    after := Some(Delayed);
    queued := true;
  }

  /** The mailbox and its job; `requeued` counts the jobs a delta has made by asking for its
      own deferred threads. */
  datatype Queued = Queued(world: World, job: Option<JobState>, requeued: nat)

  /** `Ask` is any other caller of `enqueueDelta`: a notification or the watch keeper. */
  datatype Move =
    | Ask | Pick | Within(e: Event) | Finish | Fail(retry: bool) | Forget

  /** The loop has ended with threads deferred: instead of the cursor write the delta asks for
      the job it is itself running in. */
  predicate AsksAgain(s: World, e: Event) {
    e.DeltaCommit? && s.delta.DLoop? && s.delta.next == |s.delta.batch| && s.delta.deferred
  }

  function Do(q: Queued, move: Move): Queued {
    match move
    case Ask => q.(job := AfterAsk(q.job))
    case Pick => if q.job == Some(Waiting) || q.job == Some(Delayed) then q.(job := Some(Active)) else q
    case Within(e) =>
      if e.Provider? then q.(world := Step(q.world, e))
      else if q.job != Some(Active) then q
      else if AsksAgain(q.world, e) then
        Queued(Step(q.world, e), AfterAsk(q.job), q.requeued + if Unfinished(q.job) then 0 else 1)
      else q.(world := Step(q.world, e))
    case Finish => if q.job == Some(Active) && q.world.delta.DIdle? then q.(job := Some(Completed)) else q
    case Fail(retry) =>
      if q.job == Some(Active) then
        q.(world := Step(q.world, DeltaCrash), job := Some(if retry then Delayed else Failed))
      else q
    case Forget => if Unfinished(q.job) then q else q.(job := None)
  }

  function DoAll(q: Queued, moves: seq<Move>): Queued
    decreases moves
  {
    if moves == [] then q else DoAll(Do(q, moves[0]), moves[1..])
  }

  /** Any moves of the queue, with the provider and deltas that find their history unexpired. */
  predicate DeltaMoves(moves: seq<Move>) {
    forall move | move in moves ::
      move.Within? ==> move.e.Provider? || (IsDelta(move.e) && !move.e.DeltaExpired?)
  }

  /** A delta is under way only inside the active job. */
  predicate JobInv(q: Queued) {
    q.world.delta.DIdle? || q.job == Some(Active)
  }

  lemma DoStuck(q: Queued, move: Move, from: nat, first: seq<nat>)
    requires JobInv(q) && D.Stuck(q.world, from, first) && DeltaMoves([move])
    ensures JobInv(Do(q, move)) && D.Stuck(Do(q, move).world, from, first) && Do(q, move).requeued == q.requeued
    ensures forall before: Store | D.OnlyFirstWritten(before, q.world.local, first) ::
      D.OnlyFirstWritten(before, Do(q, move).world.local, first)
  {
    assert move in [move];
    match move
    case Within(e) => D.StepStuck(q.world, e, from, first);
    case Fail(_) => D.StepStuck(q.world, DeltaCrash, from, first);
    case _ =>
  }

  lemma {:induction false} AllStuck(q: Queued, moves: seq<Move>, from: nat, first: seq<nat>)
    requires JobInv(q) && D.Stuck(q.world, from, first) && DeltaMoves(moves)
    ensures JobInv(DoAll(q, moves)) && D.Stuck(DoAll(q, moves).world, from, first)
    ensures DoAll(q, moves).requeued == q.requeued
    ensures forall before: Store | D.OnlyFirstWritten(before, q.world.local, first) ::
      D.OnlyFirstWritten(before, DoAll(q, moves).world.local, first)
    decreases moves
  {
    if moves != [] {
      assert moves[0] in moves;
      DoStuck(q, moves[0], from, first);
      AllStuck(Do(q, moves[0]), moves[1..], from, first);
    }
  }

  /** Nothing ever works the deferred threads off. From an idle mailbox whose window holds more
      than forty threads, whatever is asked of the queue and however often the job runs, fails,
      retries and is forgotten: no delta ever gets another job by asking for its deferred
      threads, the cursor stays, and no row of a thread past the first forty is written. */
  lemma {:induction false} DeferredNeverWorkedOff(q: Queued, moves: seq<Move>)
    requires WellFormed(q.world.log) && q.world.delta.DIdle? && q.world.cursor.Some?
    requires q.world.cursor.value <= |q.world.log| && DeltaMoves(moves)
    requires |Threads(Fold(q.world.log[q.world.cursor.value..]))| > MAX_THREADS_PER_DELTA
    ensures var t := DoAll(q, moves); var first := FirstForty(Threads(Fold(q.world.log[q.world.cursor.value..])));
      && t.requeued == q.requeued && t.world.cursor == q.world.cursor
      && (t.world.delta.DFetched? ==> t.world.delta.snap.thread in first)
      && D.OnlyFirstWritten(q.world.local, t.world.local, first)
  {
    AllStuck(q, moves, q.world.cursor.value, FirstForty(Threads(Fold(q.world.log[q.world.cursor.value..]))));
  }

  /** In any state a run can reach, not only an oversized one: the delta that asks again is
      inside the active job, so the request leaves the queue as it is, and once the job ends
      nothing of it is left to run. */
  lemma {:induction false} OwnRequestAbsorbed(q: Queued, moves: seq<Move>)
    requires JobInv(q)
    ensures var t := DoAll(q, moves);
      JobInv(t) && t.requeued == q.requeued
      && forall e: Event | AsksAgain(t.world, e) ::
           Do(t, Within(e)).job == t.job == Some(Active)
           && !Unfinished(Do(Do(t, Within(e)), Finish).job)
    decreases moves
  {
    if moves != [] {
      OwnRequestAbsorbed(Do(q, moves[0]), moves[1..]);
    }
  }

  // ---- What the job does get done ----

  function WithinAll(events: seq<Event>): seq<Move> {
    seq(|events|, i requires 0 <= i < |events| => Within(events[i]))
  }

  lemma {:induction false} DoAllConcat(q: Queued, a: seq<Move>, b: seq<Move>)
    ensures DoAll(q, a + b) == DoAll(DoAll(q, a), b)
    decreases a
  {
    if a == [] {
      assert a + b == b;
    } else {
      assert (a + b)[1..] == a[1..] + b;
      DoAllConcat(Do(q, a[0]), a[1..], b);
    }
  }

  /** The active job runs its delta, and its own request for another changes nothing. */
  lemma {:induction false} ActiveRuns(q: Queued, events: seq<Event>)
    requires q.job == Some(Active)
    ensures DoAll(q, WithinAll(events)) == Queued(Run(q.world, events), Some(Active), q.requeued)
    decreases events
  {
    if events != [] {
      ActiveRuns(Do(q, Within(events[0])), events[1..]);
      assert WithinAll(events)[1..] == WithinAll(events[1..]);
    }
  }

  /** Whatever became of earlier jobs, a request and a worker start one. */
  lemma AskedAndPicked(q: Queued)
    ensures DoAll(q, [Ask, Pick]) == Queued(q.world, Some(Active), q.requeued)
  {
    assert [Ask, Pick][1..] == [Pick] && [Pick][1..] == [];
  }

  /** A job that is asked for, picked and run to its end on an idle mailbox with at most forty
      threads to fetch is completed and leaves the mailbox caught up, whatever job there was
      before. */
  lemma {:induction false} JobCatchesUp(level: Level, scope: set<nat>, q: Queued)
    requires D.Inv(level, scope, q.world) && q.world.delta.DIdle? && q.world.cursor.Some?
    requires |Threads(Fold(q.world.log[q.world.cursor.value..]))| <= MAX_THREADS_PER_DELTA
    ensures var events := D.WholeDelta(|Threads(Fold(q.world.log[q.world.cursor.value..]))|);
      var t := DoAll(q, [Ask, Pick] + WithinAll(events) + [Finish]);
      && t.job == Some(Completed) && t.world.cursor == Some(|q.world.log|) && t.world.log == q.world.log
      && (forall m: nat | Exists(t.world.log, m) && ThreadOf(t.world.log, m) in scope :: Stored(t.world.log, t.world.local, m))
      && (forall m: nat | m in t.world.local :: Exists(t.world.log, m))
  {
    var events := D.WholeDelta(|Threads(Fold(q.world.log[q.world.cursor.value..]))|);
    DoAllConcat(q, [Ask, Pick] + WithinAll(events), [Finish]);
    DoAllConcat(q, [Ask, Pick], WithinAll(events));
    AskedAndPicked(q);
    ActiveRuns(Queued(q.world, Some(Active), q.requeued), events);
    D.Convergence(level, scope, q.world);
  }

  /** A failed job leaves the mailbox idle with the invariant it had and its cursor and store as
      they are; it runs again exactly when it has attempts left, and otherwise when somebody
      asks. */
  lemma FailureIsNotTheEnd(level: Level, scope: set<nat>, q: Queued, retry: bool)
    requires D.Inv(level, scope, q.world) && q.job == Some(Active)
    ensures var t := Do(q, Fail(retry));
      && t.world.delta.DIdle? && D.Inv(level, scope, t.world)
      && t.world.cursor == q.world.cursor && t.world.local == q.world.local && t.world.log == q.world.log
      && (Do(t, Pick).job == Some(Active) <==> retry)
      && Do(Do(t, Ask), Pick).job == Some(Active)
      && (Do(t, Forget).job.None? <==> !retry)
  {
    D.StepInv(level, scope, q.world, DeltaCrash);
  }

  /** The provider changes the mailbox whatever the job is doing, and only the active job's delta
      reads it. */
  lemma OnlyTheActiveJobActs(q: Queued, e: Event)
    ensures e.Provider? ==> Do(q, Within(e)) == Queued(Step(q.world, e), q.job, q.requeued)
    ensures !e.Provider? && q.job != Some(Active) ==> Do(q, Within(e)) == q
    ensures !q.world.delta.DIdle? ==> Do(q, Finish) == q
    ensures Unfinished(q.job) ==> Do(q, Forget) == q
    ensures q.job != Some(Active) ==> Do(q, Finish) == q && forall retry: bool :: Do(q, Fail(retry)) == q
  {}
}
