/** Incremental sync (`apps/api/src/services/deltaSync.ts`): what one delta keeps, when it
    catches up, and the two branches in which it does not.
 */
module DeltaSync {
  import opened Common
  import opened HistoryFold
  import opened Mirror

  ghost predicate InSync(level: Level, scope: set<nat>, log: Log, local: Store, since: nat) {
    NoGap(level, scope, log, local, since) && NoStale(log, local, since)
  }

  /** The mirror invariant: every disagreement between the in-scope mailbox and the store has
      a provider event later than the stored cursor. */
  ghost predicate Mirrored(level: Level, scope: set<nat>, s: World) {
    s.cursor.Some? ==> s.cursor.value <= |s.log| && InSync(level, scope, s.log, s.local, s.cursor.value)
  }

  /** Messages the window deleted are gone from the store, unless something happened later. */
  ghost predicate Cleared(s: World, deleted: seq<nat>, upto: nat) {
    forall m: nat | m in deleted && Untouched(s.log, m, upto) :: m !in s.local
  }

  /** The threads written so far are right, unless something happened after the window. */
  ghost predicate Written(level: Level, s: World, threads: seq<nat>, upto: nat) {
    forall m: nat | Exists(s.log, m) && ThreadOf(s.log, m) in threads && Quiet(level, s.log, m, upto) ::
      Stored(s.log, s.local, m)
  }

  ghost predicate Window(s: World, from: nat, upto: nat) {
    s.cursor == Some(from) && from <= upto <= |s.log|
  }

  function WindowChanges(s: World, from: nat, upto: nat): seq<RawChange>
    requires from <= upto <= |s.log|
  {
    Fold(s.log[from..upto])
  }

  ghost predicate LoopOk(level: Level, s: World, from: nat, upto: nat, batch: seq<nat>, next: nat, deferred: bool) {
    && Window(s, from, upto) && next <= |batch|
    && batch == FirstForty(Threads(WindowChanges(s, from, upto)))
    && deferred == (|Threads(WindowChanges(s, from, upto))| > MAX_THREADS_PER_DELTA)
    && Cleared(s, DeletedIds(WindowChanges(s, from, upto)), upto)
    && Written(level, s, batch[..next], upto)
  }

  ghost predicate DeltaOk(level: Level, s: World) {
    match s.delta
    case DIdle => true
    case DRead(from, upto, threads, deleted) =>
      Window(s, from, upto)
      && threads == Threads(WindowChanges(s, from, upto)) && deleted == DeletedIds(WindowChanges(s, from, upto))
    case DLoop(from, upto, batch, next, deferred) => LoopOk(level, s, from, upto, batch, next, deferred)
    case DFetched(from, upto, batch, next, deferred, snap) =>
      LoopOk(level, s, from, upto, batch, next, deferred) && next < |batch|
      && snap.thread == batch[next] && upto <= snap.at && TakenAt(s.log, snap)
  }

  ghost predicate Inv(level: Level, scope: set<nat>, s: World) {
    WellFormed(s.log) && Mirrored(level, scope, s) && DeltaOk(level, s)
  }

  // ---- Every step of a delta keeps the mirror ----

  function Extended(s: World, e: Touch): World {
    s.(log := s.log + [e])
  }

  lemma ClearedKept(s: World, e: Touch, deleted: seq<nat>, upto: nat)
    requires Cleared(s, deleted, upto) && upto <= |s.log|
    ensures Cleared(Extended(s, e), deleted, upto)
  {
    forall m: nat | Untouched(s.log + [e], m, upto) ensures Untouched(s.log, m, upto) {
      AppendView(s.log, e, m);
    }
  }

  lemma WrittenKept(level: Level, s: World, e: Touch, threads: seq<nat>, upto: nat)
    requires Written(level, s, threads, upto) && upto <= |s.log| && WellFormed(s.log + [e])
    ensures Written(level, Extended(s, e), threads, upto)
  {
    forall m: nat | Quiet(level, s.log + [e], m, upto)
      ensures Quiet(level, s.log, m, upto)
      ensures View(s.log + [e], m) == View(s.log, m) && ThreadOf(s.log + [e], m) == ThreadOf(s.log, m)
    {
      AppendQuiet(level, s.log, e, m, upto);
      AppendView(s.log, e, m);
    }
  }

  lemma LoopKept(level: Level, s: World, e: Touch, from: nat, upto: nat, batch: seq<nat>, next: nat, deferred: bool)
    requires LoopOk(level, s, from, upto, batch, next, deferred) && WellFormed(s.log + [e])
    ensures LoopOk(level, Extended(s, e), from, upto, batch, next, deferred)
  {
    assert (s.log + [e])[from..upto] == s.log[from..upto];
    ClearedKept(s, e, DeletedIds(WindowChanges(s, from, upto)), upto);
    WrittenKept(level, s, e, batch[..next], upto);
  }

  lemma DeltaKept(level: Level, s: World, e: Touch)
    requires DeltaOk(level, s) && WellFormed(s.log + [e])
    ensures DeltaOk(level, Extended(s, e))
  {
    match s.delta
    case DIdle =>
    case DRead(from, upto, _, _) => assert (s.log + [e])[from..upto] == s.log[from..upto];
    case DLoop(from, upto, batch, next, deferred) => LoopKept(level, s, e, from, upto, batch, next, deferred);
    case DFetched(from, upto, batch, next, deferred, snap) =>
      LoopKept(level, s, e, from, upto, batch, next, deferred);
      assert (s.log + [e])[..snap.at] == s.log[..snap.at];
  }

  lemma {:induction false} ProviderInv(level: Level, scope: set<nat>, s: World, e: Touch)
    requires Inv(level, scope, s) && CanFollow(s.log, e)
    ensures Inv(level, scope, s.(log := s.log + [e]))
  {
    AppendWellFormed(s.log, e);
    DeltaKept(level, s, e);
    if s.cursor.Some? {
      AppendKeeps(level, scope, s.log, e, s.local, s.cursor.value);
    }
  }

  lemma DeleteInv(level: Level, scope: set<nat>, s: World)
    requires Inv(level, scope, s) && s.delta.DRead?
    ensures Inv(level, scope, Step(s, DeltaDelete))
  {
    var from, upto := s.delta.from, s.delta.upto;
    var t := Step(s, DeltaDelete);
    WindowFold(s.log, from, upto);
    forall m: nat | Quiet(level, s.log, m, from) && Stored(s.log, s.local, m) ensures Stored(s.log, t.local, m) {
      QuietUntouched(level, s.log, m, from);
    }
    assert FirstForty(s.delta.threads)[..0] == [];
  }

  lemma PersistWrites(level: Level, s: World, t: World, upto: nat, threads: seq<nat>, snap: Snap)
    requires WellFormed(s.log) && TakenAt(s.log, snap) && upto <= snap.at
    requires t.log == s.log && t.local == Apply(s.local, snap) && Written(level, s, threads, upto)
    ensures Written(level, t, threads + [snap.thread], upto)
  {
    forall m: nat | Exists(s.log, m) && ThreadOf(s.log, m) in threads + [snap.thread] && Quiet(level, s.log, m, upto)
      ensures Stored(t.log, t.local, m)
    {
      QuietUntouched(level, s.log, m, upto);
      ApplyMessage(s.log, s.local, snap, m);
    }
  }

  lemma {:induction false} PersistClears(s: World, t: World, from: nat, upto: nat, snap: Snap)
    requires WellFormed(s.log) && TakenAt(s.log, snap) && from <= upto <= snap.at
    requires t.log == s.log && t.local == Apply(s.local, snap)
    requires Cleared(s, DeletedIds(WindowChanges(s, from, upto)), upto)
    ensures Cleared(t, DeletedIds(WindowChanges(t, from, upto)), upto)
  {
    WindowFold(s.log, from, upto);
    forall m: nat | m in DeletedIds(WindowChanges(s, from, upto)) && Untouched(s.log, m, upto)
      ensures m !in t.local
    {
      ApplyMessage(s.log, s.local, snap, m);
    }
  }

  lemma {:induction false} PersistInv(level: Level, scope: set<nat>, s: World)
    requires Inv(level, scope, s) && s.delta.DFetched?
    ensures Inv(level, scope, Step(s, DeltaPersist))
  {
    var t := Step(s, DeltaPersist);
    var upto, snap, next, batch := s.delta.upto, s.delta.snap, s.delta.next, s.delta.batch;
    ApplyKeeps(level, scope, s.log, s.local, snap, s.delta.from);
    PersistWrites(level, s, t, upto, batch[..next], snap);
    assert batch[..next + 1] == batch[..next] + [snap.thread];
    PersistClears(s, t, s.delta.from, upto, snap);
  }

  /** When the loop is done, everything touched in the window is right or touched again. */
  lemma CaughtUp(level: Level, scope: set<nat>, s: World, from: nat, upto: nat)
    requires WellFormed(s.log) && Window(s, from, upto) && Mirrored(level, scope, s)
    requires Cleared(s, DeletedIds(WindowChanges(s, from, upto)), upto)
    requires Written(level, s, Threads(WindowChanges(s, from, upto)), upto)
    ensures InSync(level, scope, s.log, s.local, upto)
  {
    WindowFold(s.log, from, upto);
    forall m: nat | Exists(s.log, m) && ThreadOf(s.log, m) in scope && Quiet(level, s.log, m, upto)
      ensures Stored(s.log, s.local, m)
    {
      var t := ThreadOf(s.log, m);
      if t !in Threads(WindowChanges(s, from, upto)) {
        QuietOutside(level, s.log, m, from, upto);
      }
    }
  }

  /** A message whose thread the window does not touch is as quiet as it was before. */
  lemma QuietOutside(level: Level, log: Log, m: nat, from: nat, upto: nat)
    requires WellFormed(log) && from <= upto <= |log| && Quiet(level, log, m, upto)
    requires ThreadOf(log, m) !in Threads(Fold(log[from..upto]))
    ensures Quiet(level, log, m, from)
  {
    var window := log[from..upto];
    WindowFixed(log, from, upto);
    FoldRefinesReplay(window);
    ThreadOfTouched(log, m);
    forall k | from <= k < upto ensures log[k].message != m && log[k].thread != ThreadOf(log, m) {
      assert window[k - from] == log[k];
    }
  }

  lemma StepInv(level: Level, scope: set<nat>, s: World, e: Event)
    requires Inv(level, scope, s) && (e.Provider? || IsDelta(e)) && !e.DeltaAbort?
    ensures Inv(level, scope, Step(s, e))
  {
    match e
    case Provider(touch) => if CanFollow(s.log, touch) { ProviderInv(level, scope, s, touch); }
    case DeltaStart =>
      if s.delta.DIdle? && s.cursor.Some? && Fold(s.log[s.cursor.value..]) == [] {
        EmptyFold(s.log[s.cursor.value..]);
      }
      if s.cursor.Some? { assert s.log[s.cursor.value..] == s.log[s.cursor.value..|s.log|]; }
    case DeltaDelete => if s.delta.DRead? { DeleteInv(level, scope, s); }
    case DeltaFetch(_) =>
      assert s.log[..|s.log|] == s.log;
    case DeltaPersist => if s.delta.DFetched? { PersistInv(level, scope, s); }
    case DeltaCommit =>
      if s.delta.DLoop? && s.delta.next == |s.delta.batch| && !s.delta.deferred {
        assert s.delta.batch[..s.delta.next] == s.delta.batch == Threads(WindowChanges(s, s.delta.from, s.delta.upto));
        CaughtUp(level, scope, s, s.delta.from, s.delta.upto);
      }
    case _ =>
  }

  lemma EmptyFold(es: seq<Touch>)
    requires Fold(es) == [] && FixedThreads(es)
    ensures es == []
  {
    FoldIsReplay(es);
    if es != [] { assert Touches(es, es[0].message); }
  }

  /** Provider events, delta steps, crashes and expiries, but no abort of a running loop. */
  predicate DeltaEvents(events: seq<Event>) {
    forall e | e in events :: (e.Provider? || IsDelta(e)) && !e.DeltaAbort?
  }

  lemma {:induction false} MirrorInvariant(level: Level, scope: set<nat>, s: World, events: seq<Event>)
    requires Inv(level, scope, s) && DeltaEvents(events)
    ensures Inv(level, scope, Run(s, events))
    decreases events
  {
    if events != [] {
      assert events[0] in events;
      StepInv(level, scope, s, events[0]);
      MirrorInvariant(level, scope, Step(s, events[0]), events[1..]);
    }
  }

  /** At message level: from a state that satisfies the invariant, a message the store does not
      hold as it is has an event at or after the cursor, and so has a stored one that is gone. */
  lemma {:induction false} DisagreementHasLaterEvent(scope: set<nat>, s: World, events: seq<Event>, m: nat)
    requires Inv(ByMessage, scope, s) && DeltaEvents(events)
    ensures var t := Run(s, events);
      t.cursor.Some? && ThreadOf(t.log, m) in scope
        && View(t.log, m) != (if m in t.local then Some(t.local[m]) else None)
      ==> exists k :: t.cursor.value <= k < |t.log| && t.log[k].message == m
  {
    MirrorInvariant(ByMessage, scope, s, events);
    var t := Run(s, events);
    if t.cursor.Some? && Untouched(t.log, m, t.cursor.value) && ThreadOf(t.log, m) in scope {
      assert Exists(t.log, m) ==> Stored(t.log, t.local, m);
    }
  }

  // ---- The abort that falls through to the cursor write ----

  function AbortAndCommit(s: World): World {
    Step(Step(s, DeltaAbort), DeltaCommit)
  }

  /** The loop is at a thread it has not fetched, and will move the cursor when it ends. */
  predicate MayAbort(s: World) {
    s.delta.DLoop? && s.delta.next < |s.delta.batch| && !s.delta.deferred
  }

  lemma AbortCommits(s: World)
    requires MayAbort(s)
    ensures AbortAndCommit(s) == s.(cursor := Some(s.delta.upto), delta := DIdle)
  {
    assert |s.delta.batch[..s.delta.next]| == s.delta.next;
  }

  /** An existing in-scope message of a skipped thread, with an event in the window that excuses
      it before the commit and none after the window to excuse it from then on. */
  ghost predicate LeftBehind(level: Level, scope: set<nat>, s: World, m: nat)
    requires MayAbort(s)
  {
    && Exists(s.log, m) && ThreadOf(s.log, m) in scope && ThreadOf(s.log, m) in s.delta.batch[s.delta.next..]
    && !Quiet(level, s.log, m, s.delta.from) && Quiet(level, s.log, m, s.delta.upto)
  }

  /** When nothing is left behind, the commit that follows an abort keeps the mirror. */
  lemma {:induction false} AbortHarmless(level: Level, scope: set<nat>, s: World)
    requires Inv(level, scope, s) && MayAbort(s)
    requires forall m: nat :: !LeftBehind(level, scope, s, m)
    ensures Mirrored(level, scope, AbortAndCommit(s))
  {
    var from, upto, batch, next := s.delta.from, s.delta.upto, s.delta.batch, s.delta.next;
    WindowFold(s.log, from, upto);
    forall m: nat | Exists(s.log, m) && ThreadOf(s.log, m) in scope && Quiet(level, s.log, m, upto)
      ensures Stored(s.log, s.local, m)
    {
      assert batch == batch[..next] + batch[next..];
      if ThreadOf(s.log, m) !in batch {
        QuietOutside(level, s.log, m, from, upto);
      } else {
        assert !LeftBehind(level, scope, s, m);
      }
    }
    AbortCommits(s);
    assert InSync(level, scope, s.log, s.local, upto);
  }

  /** An exact copy of the mailbox, but for one message. */
  function AllBut(log: Log, lost: nat): Store {
    map m | m in MessagesOf(log) && Exists(log, m) && m != lost :: View(log, m).value
  }

  lemma AllButIs(log: Log, lost: nat)
    ensures forall m: nat | Exists(log, m) && m != lost :: Stored(log, AllBut(log, lost), m)
    ensures forall m: nat | m in AllBut(log, lost) :: Exists(log, m) && m != lost
  {
    forall m: nat | Exists(log, m) && m != lost ensures Stored(log, AllBut(log, lost), m) {
      ExistsTouches(log, m);
    }
  }

  lemma {:induction false} AllButInv(level: Level, scope: set<nat>, s: World, lost: nat)
    requires Inv(level, scope, s) && MayAbort(s) && LeftBehind(level, scope, s, lost)
    ensures Inv(level, scope, s.(local := AllBut(s.log, lost)))
  {
    var bad, from, upto := s.(local := AllBut(s.log, lost)), s.delta.from, s.delta.upto;
    AllButIs(s.log, lost);
    WindowFold(s.log, from, upto);
    SkippedNotWritten(s.delta.batch, s.delta.next, Fold(s.log[from..upto]), ThreadOf(s.log, lost));
    assert InSync(level, scope, bad.log, bad.local, from);
    assert Cleared(bad, DeletedIds(WindowChanges(bad, from, upto)), upto);
    assert Written(level, bad, s.delta.batch[..s.delta.next], upto);
  }

  /** A thread is on the batch once. */
  lemma SkippedNotWritten(batch: seq<nat>, next: nat, changes: seq<RawChange>, t: nat)
    requires batch == FirstForty(Threads(changes)) && next <= |batch| && t in batch[next..]
    ensures t !in batch[..next]
  {}

  /** A message left behind is lost on some store: with the same history, window and position
      the invariant can hold, and after the commit no event is left to bring the message in. */
  lemma {:induction false} AbortLosesMail(level: Level, scope: set<nat>, s: World, lost: nat) returns (bad: World)
    requires Inv(level, scope, s) && MayAbort(s) && LeftBehind(level, scope, s, lost)
    ensures bad == s.(local := bad.local) && Inv(level, scope, bad)
    ensures AbortAndCommit(bad).cursor == Some(s.delta.upto) && lost !in AbortAndCommit(bad).local
    ensures !Mirrored(level, scope, AbortAndCommit(bad))
  {
    bad := s.(local := AllBut(s.log, lost));
    AllButIs(s.log, lost);
    AllButInv(level, scope, s, lost);
    AbortCommits(bad);
    assert !Stored(bad.log, bad.local, lost) && Quiet(level, bad.log, lost, s.delta.upto);
  }

  /** So the condition is exact: an abort is harmless to every store the invariant allows at
      this point if and only if no message is left behind. */
  lemma AbortHarmlessExactlyWhen(level: Level, scope: set<nat>, s: World)
    requires Inv(level, scope, s) && MayAbort(s)
    ensures (forall m: nat :: !LeftBehind(level, scope, s, m)) <==>
            forall local: Store | Inv(level, scope, s.(local := local)) ::
              Mirrored(level, scope, AbortAndCommit(s.(local := local)))
  {
    if m: nat :| LeftBehind(level, scope, s, m) {
      var bad := AbortLosesMail(level, scope, s, m);
      assert bad == s.(local := bad.local);
    } else {
      forall local: Store | Inv(level, scope, s.(local := local))
        ensures Mirrored(level, scope, AbortAndCommit(s.(local := local)))
      {
        var u := s.(local := local);
        forall m: nat ensures !LeftBehind(level, scope, u, m) { assert !LeftBehind(level, scope, s, m); }
        AbortHarmless(level, scope, u);
      }
    }
  }

  /** At thread level every existing message of a skipped thread without a later event is left
      behind, whatever the window did to the thread: the window names the thread. */
  lemma LeftBehindByThread(scope: set<nat>, s: World, m: nat)
    requires Inv(ByThread, scope, s) && MayAbort(s)
    ensures LeftBehind(ByThread, scope, s, m) <==>
            Exists(s.log, m) && ThreadOf(s.log, m) in scope && ThreadOf(s.log, m) in s.delta.batch[s.delta.next..]
            && ThreadUntouched(s.log, ThreadOf(s.log, m), s.delta.upto)
  {
    var t := ThreadOf(s.log, m);
    if t in s.delta.batch[s.delta.next..] {
      var i :| s.delta.next <= i < |s.delta.batch| && s.delta.batch[i] == t;
      var threads := Threads(WindowChanges(s, s.delta.from, s.delta.upto));
      assert threads[i] == t;
      WindowTouches(s.log, t, s.delta.from, s.delta.upto);
    }
  }

  lemma WindowTouches(log: Log, t: nat, from: nat, upto: nat)
    requires WellFormed(log) && from <= upto <= |log| && t in Threads(Fold(log[from..upto]))
    ensures !ThreadUntouched(log, t, from)
  {
    var window := log[from..upto];
    WindowFixed(log, from, upto);
    FoldRefinesReplay(window);
    var k :| 0 <= k < |window| && window[k].thread == t;
    assert log[from + k].thread == t;
  }

  /** The deletions are all that the skipped threads' changes asked for. */
  ghost predicate OnlyDeletions(changes: seq<RawChange>, skipped: seq<nat>) {
    forall c | c in changes && c.thread in skipped :: c.DeletedChange?
  }

  /** At message level skipped deletions leave nothing behind. */
  lemma {:induction false} DeletionsLeaveNothing(scope: set<nat>, s: World, m: nat)
    requires Inv(ByMessage, scope, s) && MayAbort(s)
    requires OnlyDeletions(WindowChanges(s, s.delta.from, s.delta.upto), s.delta.batch[s.delta.next..])
    ensures !LeftBehind(ByMessage, scope, s, m)
  {
    if LeftBehind(ByMessage, scope, s, m) {
      SkippedIsDeleted(s, m, s.delta.from, s.delta.upto, s.delta.batch[s.delta.next..]);
    }
  }

  /** With only deletions among the skipped threads, a message of theirs touched in the window
      and not after it no longer exists. */
  lemma SkippedIsDeleted(s: World, m: nat, from: nat, upto: nat, skipped: seq<nat>)
    requires WellFormed(s.log) && from <= upto <= |s.log|
    requires OnlyDeletions(WindowChanges(s, from, upto), skipped)
    requires Untouched(s.log, m, upto) && !Untouched(s.log, m, from) && ThreadOf(s.log, m) in skipped
    ensures !Exists(s.log, m)
  {
    var window := s.log[from..upto];
    var changes := Fold(window);
    WindowFold(s.log, from, upto);
    WindowFixed(s.log, from, upto);
    FoldIsReplay(window);
    var k :| from <= k < |s.log| && s.log[k].message == m;
    assert window[k - from] == s.log[k];
    assert Touches(window, m);
    var c := changes[IndexOf(changes, m)];
    assert Entry(window, c);
    ThreadOfTouched(s.log, m);
    assert c.thread == ThreadOf(s.log, m);
    assert c.DeletedChange?;
    DeletedIdsAre(changes, m);
    assert m in DeletedIds(changes);
  }

  lemma OneAddition(log: Log)
    requires log == [Added(1, 7)]
    ensures WellFormed(log) && Exists(log, 1) && ThreadOf(log, 1) == 7
    ensures forall m: nat | Exists(log, m) :: m == 1
  {
    assert log[..0] == [];
    assert CanFollow(log[..0], log[0]);
    forall m: nat | Exists(log, m) ensures m == 1 { ExistsTouches(log, m); }
  }

  lemma OneAdditionFolds(log: Log)
    requires log == [Added(1, 7)]
    ensures Threads(Fold(log)) == [7] && DeletedIds(Fold(log)) == []
  {
    var c := UpsertedChange(1, 7);
    assert log[..0] == [] && FoldFrom([], log[..0]) == [];
    assert FoldTouch([], log[0]) == [] + [c];
    var changes := [] + [c];
    assert Fold(log) == changes;
    assert changes[..0] == [] && changes[0] == c;
    assert Threads(changes[..0]) == [];
  }

  /** The shortest such run: one new message, an abort before its thread is fetched. */
  lemma AbortWitness()
    ensures var s := World([Added(1, 7)], map[], Some(0), None, DIdle, BIdle);
      Inv(ByMessage, {7}, s)
      && var t := Run(s, [DeltaStart, DeltaDelete, DeltaAbort, DeltaCommit]);
         t.cursor == Some(|t.log|) && Exists(t.log, 1) && 1 !in t.local && !Mirrored(ByMessage, {7}, t)
  {
    var log := [Added(1, 7)];
    var s := World(log, map[], Some(0), None, DIdle, BIdle);
    OneAddition(log);
    RunFour(s, DeltaStart, DeltaDelete, DeltaAbort, DeltaCommit);
    var t := AbortedRun(s);
    assert !Stored(t.log, t.local, 1) && Quiet(ByMessage, t.log, 1, 1);
  }

  lemma AbortedRun(s: World) returns (t: World)
    requires s == World([Added(1, 7)], map[], Some(0), None, DIdle, BIdle)
    ensures t == Step(Step(Step(Step(s, DeltaStart), DeltaDelete), DeltaAbort), DeltaCommit)
    ensures t == s.(cursor := Some(1))
  {
    OneAdditionFolds(s.log);
    assert s.log[0..] == s.log;
    var s1 := Step(s, DeltaStart);
    assert s1 == s.(delta := DRead(0, 1, [7], []));
    var s2 := Step(s1, DeltaDelete);
    assert FirstForty([7]) == [7] && Remove(map[], []) == map[];
    assert s2 == s.(delta := DLoop(0, 1, [7], 0, false));
    var s3 := Step(s2, DeltaAbort);
    assert s3 == s.(delta := DLoop(0, 1, [], 0, false));
    t := Step(s3, DeltaCommit);
  }

  // ---- More than forty threads ----

  /** Once the window holds more than forty threads, every run of deltas over every growth of
      the history keeps taking the same first forty and leaves the cursor where it is. */
  ghost predicate Stuck(s: World, from: nat, first: seq<nat>) {
    && WellFormed(s.log) && s.cursor == Some(from) && from <= |s.log| && |first| == MAX_THREADS_PER_DELTA
    && first <= Threads(Fold(s.log[from..])) && |Threads(Fold(s.log[from..]))| > MAX_THREADS_PER_DELTA
    && match s.delta
       case DIdle => true
       case DRead(f, _, threads, _) => first <= threads && |threads| > MAX_THREADS_PER_DELTA
       case DLoop(f, _, batch, _, deferred) => batch <= first && deferred
       case DFetched(f, _, batch, next, deferred, snap) =>
         batch <= first && deferred && snap.thread in first
         && forall m | m in snap.rows :: snap.rows[m].thread == snap.thread
  }

  /** No row of a thread outside `first` has been written since `before`. */
  predicate OnlyFirstWritten(before: Store, local: Store, first: seq<nat>) {
    forall m | m in local && local[m].thread !in first :: m in before && before[m] == local[m]
  }

  lemma ThreadsNonEmpty(changes: seq<RawChange>)
    requires Threads(changes) != []
    ensures changes != []
  {}

  lemma StepStuck(s: World, e: Event, from: nat, first: seq<nat>)
    requires Stuck(s, from, first) && (e.Provider? || (IsDelta(e) && !e.DeltaExpired?))
    ensures Stuck(Step(s, e), from, first)
    ensures forall before: Store | OnlyFirstWritten(before, s.local, first) ::
      OnlyFirstWritten(before, Step(s, e).local, first)
  {
    match e
    case Provider(touch) =>
      if CanFollow(s.log, touch) {
        AppendWellFormed(s.log, touch);
        var longer := s.log + [touch];
        assert longer[from..] == s.log[from..] + [touch];
        ThreadsStable(s.log[from..], [touch]);
      }
    case DeltaStart =>
      ThreadsNonEmpty(Fold(s.log[from..]));
    case _ =>
  }

  lemma {:induction false} StuckForever(s: World, events: seq<Event>, from: nat, first: seq<nat>)
    requires Stuck(s, from, first)
    requires forall e | e in events :: e.Provider? || (IsDelta(e) && !e.DeltaExpired?)
    ensures Stuck(Run(s, events), from, first)
    ensures forall before: Store | OnlyFirstWritten(before, s.local, first) ::
      OnlyFirstWritten(before, Run(s, events).local, first)
    decreases events
  {
    if events != [] {
      assert events[0] in events;
      StepStuck(s, events[0], from, first);
      StuckForever(Step(s, events[0]), events[1..], from, first);
    }
  }

  /** From an idle mailbox whose window holds more than forty threads: whatever deltas run and
      however the history grows, until it expires the cursor stays, any thread being fetched
      is one of the first forty, and no row of another thread is ever written. */
  lemma {:induction false} OversizedWindow(s: World, events: seq<Event>)
    requires WellFormed(s.log) && s.delta.DIdle? && s.cursor.Some? && s.cursor.value <= |s.log|
    requires |Threads(Fold(s.log[s.cursor.value..]))| > MAX_THREADS_PER_DELTA
    requires forall e | e in events :: e.Provider? || (IsDelta(e) && !e.DeltaExpired?)
    ensures Run(s, events).cursor == s.cursor
    ensures Run(s, events).delta.DFetched? ==>
      Run(s, events).delta.snap.thread in FirstForty(Threads(Fold(s.log[s.cursor.value..])))
    ensures OnlyFirstWritten(s.local, Run(s, events).local, FirstForty(Threads(Fold(s.log[s.cursor.value..]))))
  {
    StuckForever(s, events, s.cursor.value, FirstForty(Threads(Fold(s.log[s.cursor.value..]))));
  }

  // ---- Convergence ----

  /** Fetch and persist, thread after thread, to the end of the batch. */
  function Loop(n: nat): seq<Event> {
    if n == 0 then [] else [DeltaFetch(true), DeltaPersist] + Loop(n - 1)
  }

  /** One uninterrupted delta over `n` threads. */
  function WholeDelta(n: nat): seq<Event> {
    [DeltaStart, DeltaDelete] + Loop(n) + [DeltaCommit]
  }

  lemma {:induction false} LoopRuns(s: World)
    requires s.delta.DLoop? && s.delta.next <= |s.delta.batch|
    ensures var t := Run(s, Loop(|s.delta.batch| - s.delta.next));
      t == s.(local := t.local, delta := DLoop(s.delta.from, s.delta.upto, s.delta.batch, |s.delta.batch|, s.delta.deferred))
    decreases |s.delta.batch| - s.delta.next
  {
    if s.delta.next < |s.delta.batch| {
      var n := |s.delta.batch| - s.delta.next;
      var rest := Loop(n - 1);
      assert Loop(n)[0] == DeltaFetch(true) && Loop(n)[1..][0] == DeltaPersist && Loop(n)[1..][1..] == rest;
      LoopRuns(Step(Step(s, DeltaFetch(true)), DeltaPersist));
    }
  }

  lemma {:induction false} LoopIsDelta(n: nat)
    ensures DeltaEvents(Loop(n))
  {
    if n > 0 { LoopIsDelta(n - 1); }
  }

  lemma LoopAndCommit(a: World)
    requires a.delta.DLoop? && a.delta.next == 0 && !a.delta.deferred
    ensures var t := Run(a, Loop(|a.delta.batch|) + [DeltaCommit]);
      t == a.(local := t.local, cursor := Some(a.delta.upto), delta := DIdle)
  {
    LoopRuns(a);
    RunConcat(a, Loop(|a.delta.batch|), [DeltaCommit]);
    RunOne(Run(a, Loop(|a.delta.batch|)), DeltaCommit);
  }

  lemma StartAndDelete(s: World)
    requires s.delta.DIdle? && s.cursor.Some? && s.cursor.value <= |s.log|
    requires |Threads(Fold(s.log[s.cursor.value..]))| <= MAX_THREADS_PER_DELTA
    ensures var a := Run(s, [DeltaStart, DeltaDelete]);
      var threads := Threads(Fold(s.log[s.cursor.value..]));
      if Fold(s.log[s.cursor.value..]) == [] then a == s.(cursor := Some(|s.log|)) && threads == []
      else a == s.(local := a.local, delta := DLoop(s.cursor.value, |s.log|, threads, 0, false))
  {
    RunTwo(s, DeltaStart, DeltaDelete);
    var threads := Threads(Fold(s.log[s.cursor.value..]));
    assert FirstForty(threads) == threads;
  }

  lemma WholeDeltaRuns(s: World)
    requires s.delta.DIdle? && s.cursor.Some? && s.cursor.value <= |s.log|
    requires |Threads(Fold(s.log[s.cursor.value..]))| <= MAX_THREADS_PER_DELTA
    ensures var t := Run(s, WholeDelta(|Threads(Fold(s.log[s.cursor.value..]))|));
      t.log == s.log && t.cursor == Some(|s.log|) && t.delta.DIdle?
  {
    var n := |Threads(Fold(s.log[s.cursor.value..]))|;
    StartAndDelete(s);
    var a := Run(s, [DeltaStart, DeltaDelete]);
    assert WholeDelta(n) == [DeltaStart, DeltaDelete] + (Loop(n) + [DeltaCommit]);
    RunConcat(s, [DeltaStart, DeltaDelete], Loop(n) + [DeltaCommit]);
    if a.delta.DLoop? {
      LoopAndCommit(a);
    } else {
      assert Loop(0) + [DeltaCommit] == [DeltaCommit];
      RunOne(a, DeltaCommit);
    }
  }

  /** With a quiet provider and at most forty threads in the window, one whole delta reaches
      the head of the history, and the store then equals the in-scope mailbox. */
  lemma {:induction false} Convergence(level: Level, scope: set<nat>, s: World)
    requires Inv(level, scope, s) && s.delta.DIdle? && s.cursor.Some?
    requires |Threads(Fold(s.log[s.cursor.value..]))| <= MAX_THREADS_PER_DELTA
    ensures var t := Run(s, WholeDelta(|Threads(Fold(s.log[s.cursor.value..]))|));
      && t.log == s.log && t.cursor == Some(|s.log|) && t.delta.DIdle?
      && (forall m: nat | Exists(t.log, m) && ThreadOf(t.log, m) in scope :: Stored(t.log, t.local, m))
      && (forall m: nat | m in t.local :: Exists(t.log, m))
  {
    var n := |Threads(Fold(s.log[s.cursor.value..]))|;
    LoopIsDelta(n);
    WholeDeltaRuns(s);
    MirrorInvariant(level, scope, s, WholeDelta(n));
    var t := Run(s, WholeDelta(n));
    assert InSync(level, scope, t.log, t.local, |t.log|);
    assert forall m: nat :: Quiet(level, t.log, m, |t.log|);
  }
}
