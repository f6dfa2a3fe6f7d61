/** The mailbox mirror from its first moment (`apps/api/src/services/sync.ts`, `deltaSync.ts`):
    nothing stored, the first backfill, then deltas. Backfill leaves each thread, not each
    message, right or excused, so this is the level at which the two jobs fit together.
 */
module MirrorRuns {
  import opened Common
  import opened HistoryFold
  import opened Mirror
  import B = Backfill
  import D = DeltaSync

  const NEW_MAILBOX := World([], map[], None, None, DIdle, BIdle)

  /** The first backfill: nothing is stored before its pointer is saved, and whatever is stored
      later exists or has an event after the pointer. Without a cursor no delta does anything. */
  ghost predicate FirstInv(scope: set<nat>, rank: nat -> nat, s: World) {
    && B.Inv(scope, rank, s) && s.cursor.None? && s.delta.DIdle?
    && (s.checkpoint.None? ==> s.local == map[])
    && (s.checkpoint.Some? ==> NoStale(s.log, s.local, s.checkpoint.value.start))
  }

  lemma FirstProvider(scope: set<nat>, rank: nat -> nat, s: World, e: Touch)
    requires FirstInv(scope, rank, s) && CanFollow(s.log, e)
    ensures FirstInv(scope, rank, s.(log := s.log + [e]))
  {
    B.ProviderInv(scope, rank, s, e);
    if s.checkpoint.Some? {
      AppendWellFormed(s.log, e);
      AppendKeeps(ByThread, scope, s.log, e, s.local, s.checkpoint.value.start);
    }
  }

  lemma {:induction false} FirstBack(scope: set<nat>, rank: nat -> nat, s: World, e: Event)
    requires FirstInv(scope, rank, s) && B.IsBackfill(e) && B.HonestStep(scope, rank, s, e) && !e.BackFinish?
    ensures FirstInv(scope, rank, Step(s, e))
  {
    B.StepInv(scope, rank, s, e);
    if e.BackWrite? && s.back.BWriting? && s.back.next < |s.back.snaps| {
      ApplyKeeps(ByThread, scope, s.log, s.local, s.back.snaps[s.back.next], s.back.start);
    }
  }

  /** Up to its first finish a mailbox may crash, resume and be notified of changes. */
  predicate BeforeFinish(events: seq<Event>) {
    forall e | e in events :: !e.BackFinish?
  }

  lemma {:induction false} FirstRun(scope: set<nat>, rank: nat -> nat, s: World, events: seq<Event>)
    requires FirstInv(scope, rank, s) && BeforeFinish(events) && B.Honest(scope, rank, s, events)
    ensures FirstInv(scope, rank, Run(s, events))
    decreases events
  {
    if events != [] {
      var e := events[0];
      assert e in events;
      match e {
        case Provider(touch) => if CanFollow(s.log, touch) { FirstProvider(scope, rank, s, touch); }
        case _ => if !IsDelta(e) { FirstBack(scope, rank, s, e); }
      }
      FirstRun(scope, rank, Step(s, e), events[1..]);
    }
  }

  /** The finish of the first backfill establishes what every delta keeps. */
  lemma {:induction false} FinishEstablishes(scope: set<nat>, rank: nat -> nat, first: seq<Event>)
    requires BeforeFinish(first) && B.Honest(scope, rank, NEW_MAILBOX, first) && Run(NEW_MAILBOX, first).back.BDone?
    ensures var t := Step(Run(NEW_MAILBOX, first), BackFinish);
      D.Inv(ByThread, scope, t) && t.cursor == Some(Run(NEW_MAILBOX, first).back.start) && t.delta.DIdle?
  {
    FirstRun(scope, rank, NEW_MAILBOX, first);
    B.DoneHasNoGap(scope, rank, Run(NEW_MAILBOX, first));
  }

  function Life(first: seq<Event>, later: seq<Event>): seq<Event> {
    first + [BackFinish] + later
  }

  lemma {:induction false} LifeInv(scope: set<nat>, rank: nat -> nat, first: seq<Event>, later: seq<Event>)
    requires BeforeFinish(first) && B.Honest(scope, rank, NEW_MAILBOX, first) && Run(NEW_MAILBOX, first).back.BDone?
    requires D.DeltaEvents(later)
    ensures D.Inv(ByThread, scope, Run(NEW_MAILBOX, Life(first, later)))
  {
    RunConcat(NEW_MAILBOX, first + [BackFinish], later);
    RunConcat(NEW_MAILBOX, first, [BackFinish]);
    RunOne(Run(NEW_MAILBOX, first), BackFinish);
    FinishEstablishes(scope, rank, first);
    D.MirrorInvariant(ByThread, scope, Step(Run(NEW_MAILBOX, first), BackFinish), later);
  }

  /** The mailbox and the store say the same of a message. */
  predicate Agree(s: World, m: nat) {
    View(s.log, m) == if m in s.local then Some(s.local[m]) else None
  }

  /** From an empty store: after any first backfill, with crashes, resumes and changes while it
      runs, and any deltas, a message on which mailbox and store disagree has an event on its
      thread at or after the cursor; a stored message that is gone has one of its own. */
  lemma {:induction false} DisagreementHasLaterEvent(
      scope: set<nat>, rank: nat -> nat, first: seq<Event>, later: seq<Event>, m: nat)
    requires BeforeFinish(first) && B.Honest(scope, rank, NEW_MAILBOX, first) && Run(NEW_MAILBOX, first).back.BDone?
    requires D.DeltaEvents(later)
    ensures var t := Run(NEW_MAILBOX, Life(first, later));
      t.cursor.Some? && ThreadOf(t.log, m) in scope && !Agree(t, m)
      ==> exists k :: t.cursor.value <= k < |t.log| && t.log[k].thread == ThreadOf(t.log, m)
                      && (!Exists(t.log, m) ==> t.log[k].message == m)
  {
    LifeInv(scope, rank, first, later);
    var t := Run(NEW_MAILBOX, Life(first, later));
    if t.cursor.Some? && ThreadOf(t.log, m) in scope && !Agree(t, m) {
      ThreadOfTouched(t.log, m);
      if Exists(t.log, m) {
        assert !Quiet(ByThread, t.log, m, t.cursor.value);
      } else {
        assert m in t.local && !Untouched(t.log, m, t.cursor.value);
      }
    }
  }

  /** A whole delta over at most forty threads, from a state the invariant holds in. */
  lemma {:induction false} WholeDeltaAgrees(scope: set<nat>, s: World, n: nat)
    requires D.Inv(ByThread, scope, s) && s.delta.DIdle? && s.cursor.Some?
    requires n == |Threads(Fold(s.log[s.cursor.value..]))| <= MAX_THREADS_PER_DELTA
    ensures var t := Run(s, D.WholeDelta(n));
      t.cursor == Some(|t.log|) && t.log == s.log
      && (forall x: nat | ThreadOf(t.log, x) in scope :: Agree(t, x))
      && (forall x: nat | x in t.local :: Exists(t.log, x))
  {
    D.Convergence(ByThread, scope, s);
    var t := Run(s, D.WholeDelta(n));
    forall x: nat | ThreadOf(t.log, x) in scope ensures Agree(t, x) {
      if Exists(t.log, x) { assert Stored(t.log, t.local, x); }
    }
  }

  /** And once the provider is quiet, one more delta over at most forty threads makes the store
      the in-scope mailbox. */
  lemma {:induction false} CatchesUp(
      scope: set<nat>, rank: nat -> nat, first: seq<Event>, later: seq<Event>, s: World, n: nat)
    requires BeforeFinish(first) && B.Honest(scope, rank, NEW_MAILBOX, first) && Run(NEW_MAILBOX, first).back.BDone?
    requires D.DeltaEvents(later) && s == Run(NEW_MAILBOX, Life(first, later)) && s.delta.DIdle? && s.cursor.Some?
    requires s.cursor.value <= |s.log| ==> n == |Threads(Fold(s.log[s.cursor.value..]))| <= MAX_THREADS_PER_DELTA
    ensures var t := Run(NEW_MAILBOX, Life(first, later) + D.WholeDelta(n));
      t.cursor == Some(|t.log|) && t.log == s.log
      && (forall x: nat | ThreadOf(t.log, x) in scope :: Agree(t, x))
      && (forall x: nat | x in t.local :: Exists(t.log, x))
  {
    LifeInv(scope, rank, first, later);
    WholeDeltaAgrees(scope, s, n);
    RunConcat(NEW_MAILBOX, Life(first, later), D.WholeDelta(n));
  }

  // ---- Two runs that show the conditions are needed ----

  const ADD1 := Added(1, 7)
  const ADD2 := Added(2, 7)
  const GONE2 := Deleted(2, 7)

  function OneRank(t: nat): nat { 0 }

  /** One message, then the backfill saves its pointer. */
  const OPENING := [Provider(ADD1), BackStart, BackSave]

  /** The listing leaves out the only thread, and may: the thread changed after the pointer. */
  const EMPTY_PAGE := [BackList([], None), BackFetch, BackCheckpoint, BackFinish]

  const MOVED := OPENING + [Provider(ADD2)] + EMPTY_PAGE

  function Opened(log: Log): World {
    World(log, map[], None, Some(Checkpoint(1, 0)), DIdle, BListing(1, 0))
  }

  function Finished(log: Log): World {
    World(log, map[], Some(1), None, DIdle, BIdle)
  }

  lemma OpeningRun()
    ensures CanFollow([], ADD1) && Run(NEW_MAILBOX, OPENING) == Opened([ADD1])
  {
    var n := NEW_MAILBOX;
    assert [] + [ADD1] == [ADD1];
    var a := Step(n, Provider(ADD1));
    assert a == n.(log := [ADD1]);
    var b := Step(Step(a, BackStart), BackSave);
    assert b == Opened([ADD1]);
    assert OPENING == [Provider(ADD1)] + [BackStart, BackSave];
    RunConcat(n, [Provider(ADD1)], [BackStart, BackSave]);
    RunOne(n, Provider(ADD1));
    RunTwo(a, BackStart, BackSave);
  }

  lemma EmptyPageRun(log: Log)
    ensures Run(Opened(log), EMPTY_PAGE) == Finished(log)
  {
    var s := Opened(log);
    var a := Step(Step(s, BackList([], None)), BackFetch);
    assert a == s.(back := BWriting(1, 0, [], 0, None));
    var b := Step(Step(a, BackCheckpoint), BackFinish);
    assert b == Finished(log);
    RunFour(s, BackList([], None), BackFetch, BackCheckpoint, BackFinish);
  }

  lemma EmptyPageIsHonest(log: Log)
    requires |log| >= 2 && log[1].thread == 7
    ensures B.HonestStep({7}, OneRank, Opened(log), BackList([], None))
  {
    assert !ThreadUntouched(log, 7, 1);
  }

  lemma TwoAdditions()
    ensures CanFollow([ADD1], ADD2) && WellFormed([ADD1, ADD2])
    ensures View([ADD1, ADD2], 1) == Some(Row(7, 1)) && ThreadOf([ADD1, ADD2], 1) == 7
    ensures Exists([ADD1, ADD2], 2) && ThreadOf([ADD1, ADD2], 2) == 7
  {
    var log := [ADD1, ADD2];
    assert log[..0] == [] && log[..1] == [ADD1] && [ADD1][..0] == [];
    assert LastAddOrDelete([], 1) == None && LastAddOrDelete([ADD1], 1) == Some(ADD1);
    assert Version([ADD1], 1) == 1 && ThreadOf([ADD1], 1) == 7;
    assert LastAddOrDelete([ADD1], 2) == None && !Touches([ADD1], 2);
  }

  lemma {:induction false} MovedRun()
    ensures Run(NEW_MAILBOX, OPENING + [Provider(ADD2)]) == Opened([ADD1, ADD2])
    ensures Run(NEW_MAILBOX, MOVED) == Finished([ADD1, ADD2])
  {
    OpeningRun();
    TwoAdditions();
    assert [ADD1] + [ADD2] == [ADD1, ADD2];
    RunConcat(NEW_MAILBOX, OPENING, [Provider(ADD2)]);
    RunOne(Opened([ADD1]), Provider(ADD2));
    RunConcat(NEW_MAILBOX, OPENING + [Provider(ADD2)], EMPTY_PAGE);
    EmptyPageRun([ADD1, ADD2]);
  }

  /** The message-level invariant need not hold after an honest backfill: message 1 is not
      stored and has no event after the cursor. Only its thread has one. */
  lemma MessageLevelFails()
    ensures var t := Run(NEW_MAILBOX, MOVED);
      && B.HonestStep({7}, OneRank, Run(NEW_MAILBOX, OPENING + [Provider(ADD2)]), BackList([], None))
      && t.cursor == Some(1) && !Agree(t, 1) && ThreadOf(t.log, 1) == 7 && Untouched(t.log, 1, 1)
      && !D.Mirrored(ByMessage, {7}, t)
  {
    MovedRun();
    TwoAdditions();
    EmptyPageIsHonest([ADD1, ADD2]);
    var t := Finished([ADD1, ADD2]);
    assert !Stored(t.log, t.local, 1) && Quiet(ByMessage, t.log, 1, 1);
  }

  /** The same, but what moved the thread is deleted again; then a delta is aborted before it
      fetches the thread. */
  const DROPPED := OPENING + [Provider(ADD2), Provider(GONE2)] + EMPTY_PAGE + [DeltaStart, DeltaDelete]

  lemma AddedAndDeleted()
    ensures CanFollow([ADD1, ADD2], GONE2) && WellFormed([ADD1, ADD2, GONE2])
    ensures Exists([ADD1, ADD2, GONE2], 1) && ThreadOf([ADD1, ADD2, GONE2], 1) == 7
  {
    TwoAdditions();
    AppendWellFormed([ADD1, ADD2], GONE2);
    var log := [ADD1, ADD2, GONE2];
    assert log == [ADD1, ADD2] + [GONE2];
    AppendView([ADD1, ADD2], GONE2, 1);
  }

  lemma DroppedFold()
    ensures Fold([ADD2, GONE2]) == [DeletedChange(2, 7)]
    ensures Threads(Fold([ADD2, GONE2])) == [7] && DeletedIds(Fold([ADD2, GONE2])) == [2]
  {
    FoldOneMore([], [], ADD2);
    FoldOneMore([], [ADD2], GONE2);
    assert [] + [ADD2] == [ADD2] && [ADD2] + [GONE2] == [ADD2, GONE2];
    assert FoldFrom([], [ADD2]) == [UpsertedChange(2, 7)];
    assert [DeletedChange(2, 7)][..0] == [];
  }

  lemma {:induction false} DroppedOpening()
    ensures Run(NEW_MAILBOX, OPENING + [Provider(ADD2), Provider(GONE2)]) == Opened([ADD1, ADD2, GONE2])
    ensures Run(NEW_MAILBOX, OPENING + [Provider(ADD2), Provider(GONE2)] + EMPTY_PAGE) == Finished([ADD1, ADD2, GONE2])
  {
    MovedRun();
    AddedAndDeleted();
    var two := OPENING + [Provider(ADD2)];
    assert OPENING + [Provider(ADD2), Provider(GONE2)] == two + [Provider(GONE2)];
    RunConcat(NEW_MAILBOX, two, [Provider(GONE2)]);
    RunOne(Opened([ADD1, ADD2]), Provider(GONE2));
    assert [ADD1, ADD2] + [GONE2] == [ADD1, ADD2, GONE2];
    RunConcat(NEW_MAILBOX, two + [Provider(GONE2)], EMPTY_PAGE);
    EmptyPageRun([ADD1, ADD2, GONE2]);
  }

  lemma {:induction false} DroppedRun() returns (s: World)
    ensures s == Run(NEW_MAILBOX, DROPPED)
    ensures s == Finished([ADD1, ADD2, GONE2]).(delta := DLoop(1, 3, [7], 0, false))
  {
    DroppedOpening();
    var a := Finished([ADD1, ADD2, GONE2]);
    RunConcat(NEW_MAILBOX, OPENING + [Provider(ADD2), Provider(GONE2)] + EMPTY_PAGE, [DeltaStart, DeltaDelete]);
    RunTwo(a, DeltaStart, DeltaDelete);
    DroppedFold();
    assert a.log[1..] == [ADD2, GONE2];
    var b := Step(a, DeltaStart);
    assert b == a.(delta := DRead(1, 3, [7], [2]));
    s := Step(b, DeltaDelete);
    assert FirstForty([7]) == [7] && Remove(map[], [2]) == map[];
  }

  /** After a backfill "only deletions were skipped" does not make an abort harmless: message 1
      is left behind, at either level, with the cursor at the head. */
  lemma DeletionsAreNotEnough()
    ensures var s := Run(NEW_MAILBOX, DROPPED);
      && B.HonestStep({7}, OneRank, Run(NEW_MAILBOX, OPENING + [Provider(ADD2), Provider(GONE2)]), BackList([], None))
      && s == Finished([ADD1, ADD2, GONE2]).(delta := DLoop(1, 3, [7], 0, false))
      && D.OnlyDeletions(Fold([ADD2, GONE2]), [7])
      && var t := D.AbortAndCommit(s);
         t.cursor == Some(|t.log|) && Exists(t.log, 1) && ThreadOf(t.log, 1) == 7 && 1 !in t.local
         && !D.Mirrored(ByMessage, {7}, t) && !D.Mirrored(ByThread, {7}, t)
  {
    var s := DroppedRun();
    DroppedOpening();
    AddedAndDeleted();
    DroppedFold();
    EmptyPageIsHonest([ADD1, ADD2, GONE2]);
    D.AbortCommits(s);
    var t := D.AbortAndCommit(s);
    assert !Stored(t.log, t.local, 1) && Quiet(ByMessage, t.log, 1, 3) && Quiet(ByThread, t.log, 1, 3);
  }
}
