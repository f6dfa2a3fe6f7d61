/** A delta and a backfill on one mailbox at once (`apps/api/src/services/sync.ts`,
    `deltaSync.ts`): the condition under which no change is lost, who meets it, and a run of
    the two jobs that does not.
 */
module Overlap {
  import opened Common
  import opened HistoryFold
  import opened Mirror
  import opened Backfill

  // ---- The condition ----

  /** The step replaces or removes no stored copy that is current. */
  ghost predicate KeepsCurrent(s: World, e: Event) {
    forall m: nat | Stored(s.log, s.local, m) :: Stored(s.log, Step(s, e).local, m)
  }

  ghost predicate CurrentKept(scope: set<nat>, rank: nat -> nat, s: World, events: seq<Event>)
    decreases events
  {
    events == []
    || (KeepsCurrent(s, events[0]) && HonestStep(scope, rank, s, events[0]) && !events[0].DeltaAbort?
        && CurrentKept(scope, rank, Step(s, events[0]), events[1..]))
  }

  /** All in-scope threads without an event since `since` are stored as they are. */
  ghost predicate Settled(scope: set<nat>, s: World, since: nat) {
    since <= |s.log| && forall t | t in scope && ThreadUntouched(s.log, t, since) :: Correct(s.log, s.local, t)
  }

  ghost predicate LoopSettled(scope: set<nat>, s: World, from: nat, upto: nat, batch: seq<nat>, next: nat, deferred: bool) {
    && from <= upto <= |s.log| && next <= |batch| && Settled(scope, s, from)
    && (forall t | t in batch[..next] && ThreadUntouched(s.log, t, upto) :: Correct(s.log, s.local, t))
    && (!deferred ==> forall t: nat | t !in batch && ThreadUntouched(s.log, t, upto) :: ThreadUntouched(s.log, t, from))
  }

  ghost predicate DeltaSettled(scope: set<nat>, s: World) {
    match s.delta
    case DIdle => true
    case DRead(from, upto, threads, deleted) =>
      from <= upto <= |s.log| && Settled(scope, s, from)
      && forall t: nat | t !in threads && ThreadUntouched(s.log, t, upto) :: ThreadUntouched(s.log, t, from)
    case DLoop(from, upto, batch, next, deferred) => LoopSettled(scope, s, from, upto, batch, next, deferred)
    case DFetched(from, upto, batch, next, deferred, snap) =>
      LoopSettled(scope, s, from, upto, batch, next, deferred) && next < |batch| && snap.thread == batch[next]
      && upto <= snap.at && TakenAt(s.log, snap)
  }

  ghost predicate BackSettled(scope: set<nat>, rank: nat -> nat, s: World) {
    match s.back
    case BIdle => true
    case BProfiled(start) => s.checkpoint.None? && start <= |s.log|
    case BListing(start, token) => At(s, start, token)
    case BFetching(start, token, items, snaps, nextToken) =>
      At(s, start, token) && Listed(scope, rank, s.log, start, token, nextToken, items)
      && SnapsOk(s, start, snaps) && ThreadsOf(snaps) <= items
    case BWriting(start, token, snaps, next, nextToken) =>
      At(s, start, token) && Listed(scope, rank, s.log, start, token, nextToken, ThreadsOf(snaps))
      && SnapsOk(s, start, snaps) && next <= |snaps| && SnapsWritten(s, start, snaps, next)
    case BDone(start) => At(s, start, 0) && CoveredAll(scope, s, start)
  }

  ghost predicate OverlapInv(scope: set<nat>, rank: nat -> nat, s: World) {
    && WellFormed(s.log)
    && (s.cursor.Some? ==> Settled(scope, s, s.cursor.value))
    && (s.checkpoint.Some? ==>
          s.checkpoint.value.start <= |s.log| && Covered(scope, rank, s, s.checkpoint.value.start, s.checkpoint.value.token))
    && DeltaSettled(scope, s) && BackSettled(scope, rank, s)
  }

  /** A step of the store that only makes threads right keeps everything settled. */
  lemma ImproveInv(scope: set<nat>, rank: nat -> nat, s: World, local: Store)
    requires OverlapInv(scope, rank, s)
    requires forall t: nat | Correct(s.log, s.local, t) :: Correct(s.log, local, t)
    ensures OverlapInv(scope, rank, s.(local := local))
  {}

  /** A step that keeps what is current keeps every thread that is right. */
  lemma CurrentKeepsCorrect(s: World, e: Event, t: nat)
    requires KeepsCurrent(s, e) && Correct(s.log, s.local, t)
    ensures Correct(s.log, Step(s, e).local, t)
  {}

  /** Such a write also settles its own thread, unless the thread changed after `since`. */
  lemma CurrentWrite(s: World, e: Event, snap: Snap, since: nat, t: nat)
    requires WellFormed(s.log) && TakenAt(s.log, snap) && since <= snap.at
    requires KeepsCurrent(s, e) && Step(s, e).local == Apply(s.local, snap)
    ensures Correct(s.log, s.local, t) ==> Correct(s.log, Apply(s.local, snap), t)
    ensures t == snap.thread && ThreadUntouched(s.log, t, since) ==> Correct(s.log, Apply(s.local, snap), t)
  {
    if Correct(s.log, s.local, t) { CurrentKeepsCorrect(s, e, t); }
    if ThreadUntouched(s.log, t, since) { ApplyCorrect(s.log, s.local, snap, since, t); }
  }

  lemma {:induction false} OverlapProvider(scope: set<nat>, rank: nat -> nat, s: World, e: Touch)
    requires OverlapInv(scope, rank, s) && CanFollow(s.log, e)
    ensures OverlapInv(scope, rank, s.(log := s.log + [e]))
  {
    var t := s.(log := s.log + [e]);
    AppendWellFormed(s.log, e);
    forall x: nat, since: nat | since <= |s.log| && ThreadUntouched(t.log, x, since)
      ensures ThreadUntouched(s.log, x, since) && x != e.thread
      ensures Correct(s.log, s.local, x) ==> Correct(t.log, t.local, x)
      ensures HasMessages(t.log, x) ==> HasMessages(s.log, x)
    {
      AppendView(s.log, e, 0);
      if Correct(s.log, s.local, x) { CorrectAppend(s.log, e, s.local, x, since); }
      if HasMessages(t.log, x) { HasMessagesAppend(s.log, e, x, since); }
    }
    forall x: nat, since: nat | x != e.thread && ThreadUntouched(s.log, x, since) ensures ThreadUntouched(t.log, x, since) {}
    if s.back.BFetching? || s.back.BWriting? { SnapsAppend(s, e, s.back.start, s.back.snaps); }
    if s.delta.DFetched? { assert t.log[..s.delta.snap.at] == s.log[..s.delta.snap.at]; }
  }

  lemma {:induction false} OverlapDeltaStart(scope: set<nat>, rank: nat -> nat, s: World)
    requires OverlapInv(scope, rank, s) && s.delta.DIdle? && s.cursor.Some?
    ensures OverlapInv(scope, rank, Step(s, DeltaStart))
  {
    var window := s.log[s.cursor.value..];
    assert window == s.log[s.cursor.value..|s.log|];
    WindowFold(s.log, s.cursor.value, |s.log|);
    if Fold(window) == [] { assert Threads(Fold(window)) == []; }
  }

  lemma OverlapPersist(scope: set<nat>, rank: nat -> nat, s: World)
    requires OverlapInv(scope, rank, s) && s.delta.DFetched? && KeepsCurrent(s, DeltaPersist)
    ensures OverlapInv(scope, rank, Step(s, DeltaPersist))
  {
    var snap, batch, next := s.delta.snap, s.delta.batch, s.delta.next;
    forall t: nat
      ensures Correct(s.log, s.local, t) ==> Correct(s.log, Apply(s.local, snap), t)
      ensures t == snap.thread && ThreadUntouched(s.log, t, s.delta.upto) ==> Correct(s.log, Apply(s.local, snap), t)
    {
      CurrentWrite(s, DeltaPersist, snap, s.delta.upto, t);
    }
    ImproveInv(scope, rank, s, Apply(s.local, snap));
    assert batch[..next + 1] == batch[..next] + [snap.thread];
  }

  lemma OverlapDelete(scope: set<nat>, rank: nat -> nat, s: World)
    requires OverlapInv(scope, rank, s) && s.delta.DRead? && KeepsCurrent(s, DeltaDelete)
    ensures OverlapInv(scope, rank, Step(s, DeltaDelete))
  {
    var local := Remove(s.local, s.delta.deleted);
    forall t: nat | Correct(s.log, s.local, t) ensures Correct(s.log, local, t) {
      CurrentKeepsCorrect(s, DeltaDelete, t);
    }
    ImproveInv(scope, rank, s, local);
    if |s.delta.threads| <= MAX_THREADS_PER_DELTA { assert FirstForty(s.delta.threads) == s.delta.threads; }
    assert FirstForty(s.delta.threads)[..0] == [];
  }

  lemma OverlapDeltaFetch(scope: set<nat>, rank: nat -> nat, s: World, notFound: bool)
    requires OverlapInv(scope, rank, s)
    ensures OverlapInv(scope, rank, Step(s, DeltaFetch(notFound)))
  {
    assert s.log[..|s.log|] == s.log;
  }

  lemma OverlapCommit(scope: set<nat>, rank: nat -> nat, s: World)
    requires OverlapInv(scope, rank, s)
    ensures OverlapInv(scope, rank, Step(s, DeltaCommit))
  {
    if s.delta.DLoop? && s.delta.next == |s.delta.batch| {
      assert s.delta.batch[..s.delta.next] == s.delta.batch;
    }
  }

  lemma OverlapDelta(scope: set<nat>, rank: nat -> nat, s: World, e: Event)
    requires OverlapInv(scope, rank, s) && IsDelta(e) && !e.DeltaAbort? && KeepsCurrent(s, e)
    ensures OverlapInv(scope, rank, Step(s, e))
  {
    match e
    case DeltaStart => if s.delta.DIdle? && s.cursor.Some? { OverlapDeltaStart(scope, rank, s); }
    case DeltaDelete => if s.delta.DRead? { OverlapDelete(scope, rank, s); }
    case DeltaFetch(notFound) => OverlapDeltaFetch(scope, rank, s, notFound);
    case DeltaPersist => if s.delta.DFetched? { OverlapPersist(scope, rank, s); }
    case DeltaCommit => OverlapCommit(scope, rank, s);
    case _ =>
  }

  lemma OverlapWrite(scope: set<nat>, rank: nat -> nat, s: World)
    requires OverlapInv(scope, rank, s) && s.back.BWriting? && s.back.next < |s.back.snaps|
    requires KeepsCurrent(s, BackWrite)
    ensures OverlapInv(scope, rank, Step(s, BackWrite))
  {
    var snap := s.back.snaps[s.back.next];
    var u := s.(local := Apply(s.local, snap));
    forall t: nat
      ensures Correct(s.log, s.local, t) ==> Correct(s.log, u.local, t)
      ensures t == snap.thread && ThreadUntouched(s.log, t, s.back.start) ==> Correct(s.log, u.local, t)
    {
      CurrentWrite(s, BackWrite, snap, s.back.start, t);
    }
    ImproveInv(scope, rank, s, u.local);
    assert SnapsWritten(u, s.back.start, s.back.snaps, s.back.next + 1);
  }

  lemma OverlapCheckpoint(scope: set<nat>, rank: nat -> nat, s: World)
    requires OverlapInv(scope, rank, s) && s.back.BWriting? && s.back.next == |s.back.snaps|
    ensures OverlapInv(scope, rank, Step(s, BackCheckpoint))
  {
    var start, token, snaps, nextToken := s.back.start, s.back.token, s.back.snaps, s.back.nextToken;
    forall t | t in scope && ThreadUntouched(s.log, t, start) && (nextToken.Some? ==> rank(t) < nextToken.value)
      ensures Correct(s.log, s.local, t)
    {
      if token <= rank(t) && HasMessages(s.log, t) {
        assert t in ThreadsOf(snaps);
        var i :| 0 <= i < |snaps| && snaps[i].thread == t;
      }
    }
  }

  lemma OverlapFetch(scope: set<nat>, rank: nat -> nat, s: World)
    requires OverlapInv(scope, rank, s) && s.back.BFetching?
    ensures OverlapInv(scope, rank, Step(s, BackFetch))
  {
    var snaps, items := s.back.snaps, s.back.items;
    if |snaps| < |items| {
      assert s.log[..|s.log|] == s.log;
      assert ThreadsOf(Step(s, BackFetch).back.snaps) == ThreadsOf(snaps) + [items[|snaps|]];
    } else {
      assert ThreadsOf(snaps) == items;
    }
  }

  lemma OverlapEnds(scope: set<nat>, rank: nat -> nat, s: World, e: Event)
    requires OverlapInv(scope, rank, s) && IsBackfill(e) && HonestStep(scope, rank, s, e)
    requires !e.BackFetch? && !e.BackWrite? && !e.BackCheckpoint? && !e.BackFinish?
    ensures OverlapInv(scope, rank, Step(s, e))
  {}

  lemma OverlapFinish(scope: set<nat>, rank: nat -> nat, s: World)
    requires OverlapInv(scope, rank, s)
    ensures OverlapInv(scope, rank, Step(s, BackFinish))
  {}

  lemma OverlapBack(scope: set<nat>, rank: nat -> nat, s: World, e: Event)
    requires OverlapInv(scope, rank, s) && IsBackfill(e) && KeepsCurrent(s, e) && HonestStep(scope, rank, s, e)
    ensures OverlapInv(scope, rank, Step(s, e))
  {
    match e
    case BackFetch => if s.back.BFetching? { OverlapFetch(scope, rank, s); }
    case BackWrite => if s.back.BWriting? && s.back.next < |s.back.snaps| { OverlapWrite(scope, rank, s); }
    case BackCheckpoint =>
      if s.back.BWriting? && s.back.next == |s.back.snaps| { OverlapCheckpoint(scope, rank, s); }
    case BackFinish => OverlapFinish(scope, rank, s);
    case _ => OverlapEnds(scope, rank, s, e);
  }

  /** As long as no write replaces or removes a current copy, any interleaving of deltas,
      backfills, crashes and provider events keeps the store free of gaps, also when the
      backfill overwrites a delta's newer cursor with its own older one. */
  lemma {:induction false} OverlapNoGap(scope: set<nat>, rank: nat -> nat, s: World, events: seq<Event>)
    requires OverlapInv(scope, rank, s) && CurrentKept(scope, rank, s, events)
    ensures var t := Run(s, events);
      OverlapInv(scope, rank, t)
      && (t.cursor.Some? ==> NoGap(ByThread, scope, t.log, t.local, t.cursor.value))
    decreases events
  {
    if events != [] {
      var e := events[0];
      match e {
        case Provider(touch) => if CanFollow(s.log, touch) { OverlapProvider(scope, rank, s, touch); }
        case _ => if IsDelta(e) { OverlapDelta(scope, rank, s, e); } else { OverlapBack(scope, rank, s, e); }
      }
      OverlapNoGap(scope, rank, Step(s, e), events[1..]);
    } else if s.cursor.Some? {
      forall m: nat | Exists(s.log, m) && ThreadOf(s.log, m) in scope && Quiet(ByThread, s.log, m, s.cursor.value)
        ensures Stored(s.log, s.local, m)
      {
        assert Correct(s.log, s.local, ThreadOf(s.log, m));
      }
    }
  }

  // ---- The condition, write by write ----

  lemma {:induction false} VersionGrows(log: Log, m: nat, p: nat)
    requires p <= |log|
    ensures Version(log[..p], m) <= Version(log, m)
    ensures Version(log[..p], m) == Version(log, m) <==> Untouched(log, m, p)
    decreases |log|
  {
    if p == |log| {
      assert log[..p] == log;
    } else {
      var shorter := log[..|log| - 1];
      assert shorter[..p] == log[..p];
      VersionGrows(shorter, m, p);
    }
  }

  /** What a writer could check before it writes: no stored copy is newer than the one fetched,
      and a vanished thread drops no row. */
  predicate NotOlder(local: Store, snap: Snap, m: nat)
    requires m in local
  {
    if snap.gone then local[m].thread != snap.thread
    else m in snap.rows ==> local[m].version <= snap.rows[m].version
  }

  /** A current copy survives the write exactly when it passes the check. */
  lemma NotOlderIsExact(log: Log, local: Store, snap: Snap, m: nat)
    requires WellFormed(log) && TakenAt(log, snap) && Stored(log, local, m)
    ensures Stored(log, Apply(local, snap), m) <==> NotOlder(local, snap, m)
  {
    SnapshotIs(log[..snap.at], snap.thread, m);
    VersionGrows(log, m, snap.at);
    if m in snap.rows && Untouched(log, m, snap.at) { UntouchedView(log, m, snap.at); }
  }

  lemma NoGapAfter(scope: set<nat>, log: Log, local: Store, written: Store, since: nat)
    requires NoGap(ByThread, scope, log, local, since)
    ensures NoGap(ByThread, scope, log, written, since) <==>
      forall m: nat | Due(scope, log, local, m, since) :: Stored(log, written, m)
  {
    forall m: nat | Exists(log, m) && ThreadOf(log, m) in scope && Quiet(ByThread, log, m, since)
      ensures Due(scope, log, local, m, since)
    {}
  }

  /** An in-scope message without a later event, stored as it is: no event will restore it. */
  ghost predicate Due(scope: set<nat>, log: Log, local: Store, m: nat, since: nat) {
    ThreadOf(log, m) in scope && Quiet(ByThread, log, m, since) && Stored(log, local, m)
  }

  /** One write of a fetched thread leaves no gap if and only if it passes the check on every
      in-scope current copy whose thread is quiet since the cursor; otherwise the gap is there
      at once. */
  lemma {:induction false} WriteLeavesNoGapExactlyWhen(scope: set<nat>, s: World, e: Event, snap: Snap)
    requires WellFormed(s.log) && s.cursor.Some? && NoGap(ByThread, scope, s.log, s.local, s.cursor.value)
    requires TakenAt(s.log, snap) && Step(s, e).local == Apply(s.local, snap)
    ensures NoGap(ByThread, scope, s.log, Step(s, e).local, s.cursor.value) <==>
      forall m: nat | Due(scope, s.log, s.local, m, s.cursor.value) :: NotOlder(s.local, snap, m)
  {
    NoGapAfter(scope, s.log, s.local, Step(s, e).local, s.cursor.value);
    forall m: nat | Stored(s.log, s.local, m)
      ensures Stored(s.log, Apply(s.local, snap), m) <==> NotOlder(s.local, snap, m)
    {
      NotOlderIsExact(s.log, s.local, snap, m);
    }
  }

  /** The same for the deletions: none of them may be current and quiet since the cursor. */
  lemma {:induction false} DeleteLeavesNoGapExactlyWhen(scope: set<nat>, s: World)
    requires s.cursor.Some? && NoGap(ByThread, scope, s.log, s.local, s.cursor.value) && s.delta.DRead?
    ensures NoGap(ByThread, scope, s.log, Step(s, DeltaDelete).local, s.cursor.value) <==>
      forall m: nat | Due(scope, s.log, s.local, m, s.cursor.value) :: m !in s.delta.deleted
  {
    NoGapAfter(scope, s.log, s.local, Step(s, DeltaDelete).local, s.cursor.value);
    forall m: nat | Stored(s.log, s.local, m)
      ensures Stored(s.log, Step(s, DeltaDelete).local, m) <==> m !in s.delta.deleted
    {}
  }

  /** A write that checks every stored copy meets the condition of the runs above. */
  lemma CheckedWriteKeepsCurrent(s: World, e: Event, snap: Snap)
    requires WellFormed(s.log) && TakenAt(s.log, snap) && Step(s, e).local == Apply(s.local, snap)
    requires forall m: nat | m in s.local :: NotOlder(s.local, snap, m)
    ensures KeepsCurrent(s, e)
  {
    forall m: nat | Stored(s.log, s.local, m) ensures Stored(s.log, Step(s, e).local, m) {
      NotOlderIsExact(s.log, s.local, snap, m);
    }
  }

  // ---- What becomes of a replaced copy ----

  /** What the jobs hold was fetched at some point of the history. */
  ghost predicate Taken(s: World) {
    && WellFormed(s.log) && (s.delta.DFetched? ==> TakenAt(s.log, s.delta.snap))
    && (s.back.BFetching? || s.back.BWriting? ==> SnapsOk(s, 0, s.back.snaps))
  }

  /** The step neither changes the thread at the provider nor writes it to the store. */
  predicate LeavesThread(s: World, e: Event, t: nat) {
    && !(e.Provider? && e.touch.thread == t)
    && !(e.DeltaPersist? && s.delta.DFetched? && s.delta.snap.thread == t)
    && !(e.BackWrite? && s.back.BWriting? && s.back.next < |s.back.snaps| && s.back.snaps[s.back.next].thread == t)
  }

  predicate LeaveThread(s: World, events: seq<Event>, t: nat)
    decreases events
  {
    events == [] || (LeavesThread(s, events[0], t) && LeaveThread(Step(s, events[0]), events[1..], t))
  }

  lemma {:induction false} TakenStep(s: World, e: Event)
    requires Taken(s)
    ensures Taken(Step(s, e))
  {
    match e
    case Provider(touch) =>
      if CanFollow(s.log, touch) {
        AppendWellFormed(s.log, touch);
        if s.back.BFetching? || s.back.BWriting? { SnapsAppend(s, touch, 0, s.back.snaps); }
        if s.delta.DFetched? { assert (s.log + [touch])[..s.delta.snap.at] == s.log[..s.delta.snap.at]; }
      }
    case DeltaFetch(_) => assert s.log[..|s.log|] == s.log;
    case BackFetch => assert s.log[..|s.log|] == s.log;
    case _ =>
  }

  lemma PrefixThread(log: Log, m: nat, q: nat)
    requires WellFormed(log) && q <= |log| && Exists(log[..q], m)
    ensures ThreadOf(log[..q], m) == ThreadOf(log, m)
  {
    ExistsTouches(log[..q], m);
    WellFormedPrefix(log, q);
    ThreadOfTouched(log[..q], m);
    ThreadOfTouched(log, m);
    var k :| 0 <= k < q && log[..q][k].message == m;
    assert log[k] == log[..q][k];
  }

  /** A snapshot of another thread does not hold the message. */
  lemma OtherThread(log: Log, snap: Snap, m: nat)
    requires WellFormed(log) && TakenAt(log, snap) && Exists(log, m) && ThreadOf(log, m) != snap.thread
    ensures m !in snap.rows
  {
    SnapshotIs(log[..snap.at], snap.thread, m);
    if Exists(log[..snap.at], m) { PrefixThread(log, m, snap.at); }
  }

  lemma {:induction false} StillLost(s: World, e: Event, m: nat)
    requires Taken(s) && Exists(s.log, m) && !Stored(s.log, s.local, m) && LeavesThread(s, e, ThreadOf(s.log, m))
    ensures var t := Step(s, e);
      Exists(t.log, m) && !Stored(t.log, t.local, m) && ThreadOf(t.log, m) == ThreadOf(s.log, m)
  {
    match e
    case Provider(touch) =>
      if CanFollow(s.log, touch) {
        ExistsTouches(s.log, m);
        AppendView(s.log, touch, m);
      }
    case DeltaPersist => if s.delta.DFetched? { OtherThread(s.log, s.delta.snap, m); }
    case BackWrite =>
      if s.back.BWriting? && s.back.next < |s.back.snaps| { OtherThread(s.log, s.back.snaps[s.back.next], m); }
    case _ =>
  }

  /** So the condition is needed. Once a write has replaced or removed the current copy of an
      in-scope message, and as long as its thread neither changes nor is written again, it stays
      lost; and it is a gap in every state whose cursor is past the thread's last event. */
  lemma {:induction false} ReplacedIsLost(scope: set<nat>, s: World, events: seq<Event>, m: nat)
    requires Taken(s) && Exists(s.log, m) && ThreadOf(s.log, m) in scope && !Stored(s.log, s.local, m)
    requires LeaveThread(s, events, ThreadOf(s.log, m))
    ensures var t := Run(s, events);
      && !Stored(t.log, t.local, m)
      && (t.cursor.Some? && ThreadUntouched(t.log, ThreadOf(s.log, m), t.cursor.value) ==>
            !NoGap(ByThread, scope, t.log, t.local, t.cursor.value))
    decreases events
  {
    if events != [] {
      TakenStep(s, events[0]);
      StillLost(s, events[0], m);
      ReplacedIsLost(scope, Step(s, events[0]), events[1..], m);
    } else if s.cursor.Some? && ThreadUntouched(s.log, ThreadOf(s.log, m), s.cursor.value) {
      assert Quiet(ByThread, s.log, m, s.cursor.value);
    }
  }

  // ---- Jobs that take turns meet it ----

  /** A job begins only while the other one is not running. */
  predicate InTurn(s: World, e: Event) {
    (e.DeltaStart? ==> s.back.BIdle?) && (e.BackStart? ==> s.delta.DIdle?)
  }

  ghost predicate TakeTurns(scope: set<nat>, rank: nat -> nat, s: World, events: seq<Event>)
    decreases events
  {
    events == []
    || (InTurn(s, events[0]) && HonestStep(scope, rank, s, events[0]) && !events[0].DeltaAbort?
        && TakeTurns(scope, rank, Step(s, events[0]), events[1..]))
  }

  /** No stored copy shows more of the history than its first `p` events. */
  ghost predicate ShowsAtMost(log: Log, local: Store, p: nat) {
    p <= |log| && forall m: nat | m in local :: local[m].version <= Version(log[..p], m)
  }

  ghost predicate Pending(s: World, snaps: seq<Snap>, next: nat) {
    && (forall i | next <= i < |snaps| :: TakenAt(s.log, snaps[i]) && ShowsAtMost(s.log, s.local, snaps[i].at))
    && (forall i, j | next <= i < j < |snaps| :: snaps[i].at <= snaps[j].at)
  }

  /** While a job holds something fetched, the store shows nothing later than the fetch. */
  ghost predicate TurnInv(s: World) {
    && WellFormed(s.log) && ShowsAtMost(s.log, s.local, |s.log|) && (s.delta.DIdle? || s.back.BIdle?)
    && (s.delta.DRead? ==>
          s.delta.from <= s.delta.upto && ShowsAtMost(s.log, s.local, s.delta.upto)
          && s.delta.deleted == DeletedIds(Fold(s.log[s.delta.from..s.delta.upto])))
    && (s.delta.DFetched? ==> TakenAt(s.log, s.delta.snap) && ShowsAtMost(s.log, s.local, s.delta.snap.at))
    && (s.back.BFetching? ==> Pending(s, s.back.snaps, 0))
    && (s.back.BWriting? ==> Pending(s, s.back.snaps, s.back.next))
  }

  lemma CurrentSince(log: Log, local: Store, p: nat, m: nat)
    requires ShowsAtMost(log, local, p) && Stored(log, local, m)
    ensures Untouched(log, m, p)
  {
    VersionGrows(log, m, p);
  }

  lemma {:induction false} TurnKeepsCurrent(s: World, e: Event)
    requires TurnInv(s)
    ensures KeepsCurrent(s, e)
  {
    forall m: nat | Stored(s.log, s.local, m) ensures Stored(s.log, Step(s, e).local, m) {
      match e
      case DeltaDelete =>
        if s.delta.DRead? {
          CurrentSince(s.log, s.local, s.delta.upto, m);
          WindowFold(s.log, s.delta.from, s.delta.upto);
        }
      case DeltaPersist =>
        if s.delta.DFetched? {
          CurrentSince(s.log, s.local, s.delta.snap.at, m);
          ApplyMessage(s.log, s.local, s.delta.snap, m);
        }
      case BackWrite =>
        if s.back.BWriting? && s.back.next < |s.back.snaps| {
          var snap := s.back.snaps[s.back.next];
          CurrentSince(s.log, s.local, snap.at, m);
          ApplyMessage(s.log, s.local, snap, m);
        }
      case _ =>
    }
  }

  lemma ShowsAppend(log: Log, e: Touch, local: Store, p: nat)
    requires ShowsAtMost(log, local, p)
    ensures ShowsAtMost(log + [e], local, p)
  {
    assert (log + [e])[..p] == log[..p];
  }

  lemma ShowsMore(log: Log, local: Store, p: nat, q: nat)
    requires ShowsAtMost(log, local, p) && p <= q <= |log|
    ensures ShowsAtMost(log, local, q)
  {
    forall m: nat | m in local ensures local[m].version <= Version(log[..q], m) {
      VersionGrows(log[..q], m, p);
      assert log[..q][..p] == log[..p];
    }
  }

  lemma ShowsApply(log: Log, local: Store, snap: Snap, p: nat)
    requires ShowsAtMost(log, local, p) && TakenAt(log, snap) && snap.at <= p
    ensures ShowsAtMost(log, Apply(local, snap), p)
  {
    forall m: nat | m in snap.rows ensures snap.rows[m].version <= Version(log[..p], m) {
      SnapshotIs(log[..snap.at], snap.thread, m);
      VersionGrows(log[..p], m, snap.at);
      assert log[..p][..snap.at] == log[..snap.at];
    }
  }

  lemma {:induction false} TurnProvider(s: World, e: Touch)
    requires TurnInv(s) && CanFollow(s.log, e)
    ensures TurnInv(s.(log := s.log + [e]))
  {
    var t := s.(log := s.log + [e]);
    AppendWellFormed(s.log, e);
    forall p: nat | ShowsAtMost(s.log, s.local, p) ensures ShowsAtMost(t.log, s.local, p) {
      ShowsAppend(s.log, e, s.local, p);
    }
    ShowsMore(t.log, s.local, |s.log|, |t.log|);
    forall q: nat | q <= |s.log| ensures t.log[..q] == s.log[..q] {}
    if s.delta.DRead? { assert t.log[s.delta.from..s.delta.upto] == s.log[s.delta.from..s.delta.upto]; }
  }

  lemma TurnBackWrite(s: World)
    requires TurnInv(s) && s.back.BWriting? && s.back.next < |s.back.snaps|
    ensures TurnInv(Step(s, BackWrite))
  {
    var snaps, next := s.back.snaps, s.back.next;
    ShowsApply(s.log, s.local, snaps[next], |s.log|);
    forall i | next < i < |snaps| ensures ShowsAtMost(s.log, Apply(s.local, snaps[next]), snaps[i].at) {
      ShowsApply(s.log, s.local, snaps[next], snaps[i].at);
    }
  }

  lemma TurnDelta(s: World, e: Event)
    requires TurnInv(s) && IsDelta(e) && InTurn(s, e)
    ensures TurnInv(Step(s, e))
  {
    match e
    case DeltaStart =>
      if s.cursor.Some? && s.cursor.value <= |s.log| {
        assert s.log[s.cursor.value..] == s.log[s.cursor.value..|s.log|];
      }
    case DeltaFetch(_) => assert s.log[..|s.log|] == s.log;
    case DeltaPersist =>
      if s.delta.DFetched? { ShowsApply(s.log, s.local, s.delta.snap, |s.log|); }
    case _ =>
  }

  lemma TurnBack(s: World, e: Event)
    requires TurnInv(s) && IsBackfill(e) && InTurn(s, e)
    ensures TurnInv(Step(s, e))
  {
    match e
    case BackFetch => assert s.log[..|s.log|] == s.log;
    case BackWrite => if s.back.BWriting? && s.back.next < |s.back.snaps| { TurnBackWrite(s); }
    case _ =>
  }

  lemma {:induction false} TurnsKeepCurrent(scope: set<nat>, rank: nat -> nat, s: World, events: seq<Event>)
    requires TurnInv(s) && TakeTurns(scope, rank, s, events)
    ensures CurrentKept(scope, rank, s, events)
    decreases events
  {
    if events != [] {
      var e := events[0];
      TurnKeepsCurrent(s, e);
      match e {
        case Provider(touch) => if CanFollow(s.log, touch) { TurnProvider(s, touch); }
        case _ => if IsDelta(e) { TurnDelta(s, e); } else { TurnBack(s, e); }
      }
      TurnsKeepCurrent(scope, rank, Step(s, e), events[1..]);
    }
  }

  /** The whole life of a mailbox, from nothing stored: backfills and deltas in any number and
      order, with crashes, resumes and expired cursors, no two at once and no delta aborted in
      its loop. Whenever there is a cursor, every in-scope message the store does not hold as
      it is has an event on its thread at or after it. */
  lemma {:induction false} TurnsLeaveNoGap(scope: set<nat>, rank: nat -> nat, events: seq<Event>)
    requires TakeTurns(scope, rank, World([], map[], None, None, DIdle, BIdle), events)
    ensures var t := Run(World([], map[], None, None, DIdle, BIdle), events);
      t.cursor.Some? ==> NoGap(ByThread, scope, t.log, t.local, t.cursor.value)
  {
    var s := World([], map[], None, None, DIdle, BIdle);
    assert TurnInv(s) && OverlapInv(scope, rank, s);
    TurnsKeepCurrent(scope, rank, s, events);
    OverlapNoGap(scope, rank, s, events);
  }

  // ---- Two jobs at once that do not ----

  const V0 := Added(1, 7)
  const V1 := Labelled(1, 7, [], [3])

  /** The delta fetches thread 7, the thread changes, a whole backfill stores the change, and
      only then is the delta's older copy written. */
  const RACE := [DeltaStart, DeltaDelete, DeltaFetch(false), Provider(V1)]
    + [BackStart, BackSave, BackList([7], None), BackFetch] + [BackFetch, BackWrite]
    + [DeltaPersist, DeltaCommit, BackCheckpoint, BackFinish]

  lemma LogOfTwo()
    ensures CanFollow([], V0) && CanFollow([V0], V1) && WellFormed([V0]) && WellFormed([V0, V1])
    ensures View([V0], 1) == Some(Row(7, 1)) && View([V0, V1], 1) == Some(Row(7, 2))
    ensures Snapshot([V0], 7) == map[1 := Row(7, 1)] && Snapshot([V0, V1], 7) == map[1 := Row(7, 2)]
  {
    assert [V0][..0] == [] && [V0, V1][..1] == [V0] && [V0, V1][..0] == [];
    assert LastAddOrDelete([V0], 1) == Some(V0) && LastAddOrDelete([V0, V1], 1) == Some(V0);
    assert Version([], 1) == 0 && Version([V0], 1) == 1 && Version([V0, V1], 1) == 2;
    assert MessagesOf([V0]) == {1} by { assert [V0][0] == V0; }
    assert MessagesOf([V0, V1]) == {1} by { assert [V0, V1][0] == V0; }
    assert Touches([V0], 1) by { assert [V0][0] == V0; }
  }

  lemma RaceWindow()
    ensures Threads(Fold([V0])) == [7] && DeletedIds(Fold([V0])) == [] && Fold([V0]) != []
  {
    FoldOneMore([], [], V0);
    assert [] + [V0] == [V0] && Fold([V0]) == [UpsertedChange(1, 7)];
    assert [UpsertedChange(1, 7)][..0] == [];
  }

  lemma RaceBegins(s: World) returns (b: World)
    requires s == World([V0], map[], Some(0), None, DIdle, BIdle)
    ensures b == Step(Step(s, DeltaStart), DeltaDelete) == s.(delta := DLoop(0, 1, [7], 0, false))
  {
    RaceWindow();
    var a := Step(s, DeltaStart);
    assert [V0][0..] == [V0];
    assert a == s.(delta := DRead(0, 1, [7], []));
    b := Step(a, DeltaDelete);
    assert FirstForty([7]) == [7] && Remove(map[], []) == map[];
  }

  lemma RaceDelta(s: World) returns (t: World)
    requires s == World([V0], map[], Some(0), None, DIdle, BIdle)
    ensures t == Run(s, [DeltaStart, DeltaDelete, DeltaFetch(false), Provider(V1)])
    ensures t == World([V0, V1], map[], Some(0), None,
                       DFetched(0, 1, [7], 0, false, Snap(7, 1, map[1 := Row(7, 1)], false)), BIdle)
  {
    RunFour(s, DeltaStart, DeltaDelete, DeltaFetch(false), Provider(V1));
    var b := RaceBegins(s);
    LogOfTwo();
    var c := Step(b, DeltaFetch(false));
    assert c == s.(delta := DFetched(0, 1, [7], 0, false, Snap(7, 1, map[1 := Row(7, 1)], false)));
    t := Step(c, Provider(V1));
    assert [V0] + [V1] == [V0, V1];
  }

  lemma RaceBackfill(s: World) returns (t: World)
    requires s.log == [V0, V1] && s.local == map[] && s.checkpoint.None? && s.back.BIdle?
    ensures t == Run(Run(s, [BackStart, BackSave, BackList([7], None), BackFetch]), [BackFetch, BackWrite])
    ensures t == s.(local := map[1 := Row(7, 2)], checkpoint := Some(Checkpoint(2, 0)),
                    back := BWriting(2, 0, [Snap(7, 2, map[1 := Row(7, 2)], false)], 1, None))
  {
    LogOfTwo();
    var snap := Snap(7, 2, map[1 := Row(7, 2)], false);
    var a := Step(Step(Step(s, BackStart), BackSave), BackList([7], None));
    assert a == s.(checkpoint := Some(Checkpoint(2, 0)), back := BFetching(2, 0, [7], [], None));
    var b := Step(a, BackFetch);
    assert [] + [snap] == [snap];
    assert b == a.(back := BFetching(2, 0, [7], [snap], None));
    var c := Step(b, BackFetch);
    assert c == a.(back := BWriting(2, 0, [snap], 0, None));
    t := Step(c, BackWrite);
    assert map[] + snap.rows == map[1 := Row(7, 2)];
    RunFour(s, BackStart, BackSave, BackList([7], None), BackFetch);
    RunTwo(b, BackFetch, BackWrite);
  }

  lemma RaceEnd(s: World) returns (t: World)
    requires s == World([V0, V1], map[1 := Row(7, 2)], Some(0), Some(Checkpoint(2, 0)),
                        DFetched(0, 1, [7], 0, false, Snap(7, 1, map[1 := Row(7, 1)], false)),
                        BWriting(2, 0, [Snap(7, 2, map[1 := Row(7, 2)], false)], 1, None))
    ensures t == Run(s, [DeltaPersist, DeltaCommit, BackCheckpoint, BackFinish])
    ensures t == World([V0, V1], map[1 := Row(7, 1)], Some(2), None, DIdle, BIdle)
  {
    assert s.local + s.delta.snap.rows == map[1 := Row(7, 1)];
    RunFour(s, DeltaPersist, DeltaCommit, BackCheckpoint, BackFinish);
    t := Run(s, [DeltaPersist, DeltaCommit, BackCheckpoint, BackFinish]);
  }

  function OneRank(t: nat): nat { 0 }

  /** The only thread is on the only page, so the provider listed honestly. */
  lemma RaceIsHonest(w: World, e: Event)
    requires e in RACE
    ensures HonestStep({7}, OneRank, w, e)
  {
    if e.BackList? && w.back.BListing? { assert e.items[0] == 7; }
  }

  lemma RaceStart()
    ensures OverlapInv({7}, OneRank, World([V0], map[], Some(0), None, DIdle, BIdle))
  {
    LogOfTwo();
    assert ThreadUntouched([V0], 7, 0) <==> false by { assert [V0][0] == V0; }
  }

  lemma RaceRun() returns (t: World)
    ensures t == Run(World([V0], map[], Some(0), None, DIdle, BIdle), RACE)
    ensures t == World([V0, V1], map[1 := Row(7, 1)], Some(2), None, DIdle, BIdle)
  {
    var s := World([V0], map[], Some(0), None, DIdle, BIdle);
    var a := [DeltaStart, DeltaDelete, DeltaFetch(false), Provider(V1)];
    var b := [BackStart, BackSave, BackList([7], None), BackFetch];
    var c := [BackFetch, BackWrite];
    var d := [DeltaPersist, DeltaCommit, BackCheckpoint, BackFinish];
    RunConcat(s, a + b + c, d);
    RunConcat(s, a + b, c);
    RunConcat(s, a, b);
    var s1 := RaceDelta(s);
    var s2 := RaceBackfill(s1);
    t := RaceEnd(s2);
  }

  /** The race ends with the cursor at the head of the history and an old copy in the store:
      no later event will bring the change in. */
  lemma OverlapLosesAChange()
    ensures OverlapInv({7}, OneRank, World([V0], map[], Some(0), None, DIdle, BIdle))
    ensures var t := Run(World([V0], map[], Some(0), None, DIdle, BIdle), RACE);
      && t.cursor == Some(|t.log|) && t.delta.DIdle? && t.back.BIdle?
      && View(t.log, 1) == Some(Row(7, 2)) && t.local == map[1 := Row(7, 1)]
      && !NoGap(ByThread, {7}, t.log, t.local, |t.log|)
  {
    LogOfTwo();
    RaceStart();
    var t := RaceRun();
    assert Exists(t.log, 1) && ThreadOf(t.log, 1) == 7 && Quiet(ByThread, t.log, 1, 2);
    assert !Stored(t.log, t.local, 1);
  }
}
