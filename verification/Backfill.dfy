/** The resumable backfill (`apps/api/src/services/sync.ts`): what is stored when it writes the
    cursor, what it never removes, and how it and a delta may overlap.

    The provider's listing is an adversary with one obligation: a thread that has not changed
    since the backfill began keeps its rank, and is on the page whose token range covers it.
 */
module Backfill {
  import opened Common
  import opened HistoryFold
  import opened Mirror

  /** Every existing message of the thread is stored as it is. */
  ghost predicate Correct(log: Log, local: Store, t: nat) {
    forall m: nat | Exists(log, m) && ThreadOf(log, m) == t :: Stored(log, local, m)
  }

  ghost predicate HasMessages(log: Log, t: nat) {
    exists m: nat :: Exists(log, m) && ThreadOf(log, m) == t
  }

  predicate InRange(rank: nat, token: nat, nextToken: Option<nat>) {
    token <= rank && (nextToken.Some? ==> rank < nextToken.value)
  }

  /** The obligation of one page, taken when it is listed and kept while nothing changes. */
  ghost predicate Listed(scope: set<nat>, rank: nat -> nat, log: Log, start: nat, token: nat,
                         nextToken: Option<nat>, items: seq<nat>) {
    forall t | t in scope && ThreadUntouched(log, t, start) && HasMessages(log, t) && InRange(rank(t), token, nextToken) ::
      t in items
  }

  /** The unchanged in-scope threads before `token` are stored. */
  ghost predicate Covered(scope: set<nat>, rank: nat -> nat, s: World, start: nat, token: nat) {
    forall t | t in scope && ThreadUntouched(s.log, t, start) && rank(t) < token :: Correct(s.log, s.local, t)
  }

  ghost predicate CoveredAll(scope: set<nat>, s: World, start: nat) {
    forall t | t in scope && ThreadUntouched(s.log, t, start) :: Correct(s.log, s.local, t)
  }

  ghost predicate SnapsOk(s: World, start: nat, snaps: seq<Snap>) {
    forall i | 0 <= i < |snaps| :: start <= snaps[i].at && TakenAt(s.log, snaps[i])
  }

  function ThreadsOf(snaps: seq<Snap>): seq<nat> {
    seq(|snaps|, i requires 0 <= i < |snaps| => snaps[i].thread)
  }

  ghost predicate SnapsWritten(s: World, start: nat, snaps: seq<Snap>, next: nat)
    requires next <= |snaps|
  {
    forall i | 0 <= i < next && ThreadUntouched(s.log, snaps[i].thread, start) :: Correct(s.log, s.local, snaps[i].thread)
  }

  ghost predicate At(s: World, start: nat, token: nat) {
    s.checkpoint == Some(Checkpoint(start, token))
  }

  ghost predicate BackOk(scope: set<nat>, rank: nat -> nat, s: World) {
    match s.back
    case BIdle => true
    case BProfiled(start) => s.checkpoint.None? && start <= |s.log|
    case BListing(start, token) => At(s, start, token)
    case BFetching(start, token, items, snaps, nextToken) =>
      At(s, start, token) && Listed(scope, rank, s.log, start, token, nextToken, items)
      && SnapsOk(s, start, snaps) && ThreadsOf(snaps) <= items
    case BWriting(start, token, snaps, next, nextToken) =>
      At(s, start, token) && Listed(scope, rank, s.log, start, token, nextToken, ThreadsOf(snaps))
      && SnapsOk(s, start, snaps) && next <= |snaps| && SnapsWritten(s, start, snaps, next)
    case BDone(start) => At(s, start, 0) && CoveredAll(scope, s, start)
  }

  ghost predicate Inv(scope: set<nat>, rank: nat -> nat, s: World) {
    && WellFormed(s.log)
    && (s.checkpoint.Some? ==>
          s.checkpoint.value.start <= |s.log| && Covered(scope, rank, s, s.checkpoint.value.start, s.checkpoint.value.token))
    && BackOk(scope, rank, s)
  }

  predicate IsBackfill(e: Event) {
    !e.Provider? && !IsDelta(e)
  }

  /** The provider keeps its obligation when it answers a listing. */
  ghost predicate HonestStep(scope: set<nat>, rank: nat -> nat, s: World, e: Event) {
    e.BackList? && s.back.BListing? ==>
      Listed(scope, rank, s.log, s.back.start, s.back.token, e.nextToken, e.items)
  }

  ghost predicate Honest(scope: set<nat>, rank: nat -> nat, s: World, events: seq<Event>)
    decreases events
  {
    events == [] || (HonestStep(scope, rank, s, events[0]) && Honest(scope, rank, Step(s, events[0]), events[1..]))
  }

  // ---- Each step ----

  lemma CorrectAppend(log: Log, e: Touch, local: Store, t: nat, since: nat)
    requires WellFormed(log + [e]) && since <= |log| && ThreadUntouched(log + [e], t, since)
    requires Correct(log, local, t)
    ensures Correct(log + [e], local, t)
  {
    forall m: nat | Exists(log + [e], m) && ThreadOf(log + [e], m) == t ensures Stored(log + [e], local, m) {
      AppendQuiet(ByThread, log, e, m, since);
      AppendView(log, e, m);
    }
  }

  lemma HasMessagesAppend(log: Log, e: Touch, t: nat, since: nat)
    requires WellFormed(log + [e]) && since <= |log| && ThreadUntouched(log + [e], t, since)
    requires HasMessages(log + [e], t)
    ensures HasMessages(log, t) && ThreadUntouched(log, t, since)
  {
    var m: nat :| Exists(log + [e], m) && ThreadOf(log + [e], m) == t;
    AppendQuiet(ByThread, log, e, m, since);
    AppendView(log, e, m);
  }

  lemma SnapsAppend(s: World, e: Touch, start: nat, snaps: seq<Snap>)
    requires SnapsOk(s, start, snaps)
    ensures SnapsOk(s.(log := s.log + [e]), start, snaps)
  {
    forall i | 0 <= i < |snaps| ensures TakenAt(s.log + [e], snaps[i]) {
      assert (s.log + [e])[..snaps[i].at] == s.log[..snaps[i].at];
    }
  }

  lemma ProviderInv(scope: set<nat>, rank: nat -> nat, s: World, e: Touch)
    requires Inv(scope, rank, s) && CanFollow(s.log, e)
    ensures Inv(scope, rank, s.(log := s.log + [e]))
  {
    var t := s.(log := s.log + [e]);
    AppendWellFormed(s.log, e);
    forall x: nat, since: nat | since <= |s.log| && ThreadUntouched(t.log, x, since)
      ensures ThreadUntouched(s.log, x, since)
      ensures Correct(s.log, s.local, x) ==> Correct(t.log, t.local, x)
      ensures HasMessages(t.log, x) ==> HasMessages(s.log, x)
    {
      AppendView(s.log, e, 0);
      if Correct(s.log, s.local, x) { CorrectAppend(s.log, e, s.local, x, since); }
      if HasMessages(t.log, x) { HasMessagesAppend(s.log, e, x, since); }
    }
    if s.back.BFetching? || s.back.BWriting? { SnapsAppend(s, e, s.back.start, s.back.snaps); }
  }

  /** Writing a snapshot taken since `start` settles its own thread and spoils none. */
  lemma ApplyCorrect(log: Log, local: Store, snap: Snap, start: nat, t: nat)
    requires WellFormed(log) && TakenAt(log, snap) && start <= snap.at && ThreadUntouched(log, t, start)
    ensures Correct(log, local, t) || t == snap.thread ==> Correct(log, Apply(local, snap), t)
  {
    if Correct(log, local, t) || t == snap.thread {
      forall m: nat | Exists(log, m) && ThreadOf(log, m) == t ensures Stored(log, Apply(local, snap), m) {
        QuietUntouched(ByThread, log, m, start);
        ApplyMessage(log, local, snap, m);
      }
    }
  }

  lemma WriteInv(scope: set<nat>, rank: nat -> nat, s: World)
    requires Inv(scope, rank, s) && s.back.BWriting? && s.back.next < |s.back.snaps|
    ensures Inv(scope, rank, Step(s, BackWrite))
  {
    var t := Step(s, BackWrite);
    var start, snaps, next := s.back.start, s.back.snaps, s.back.next;
    forall x: nat | ThreadUntouched(s.log, x, start)
      ensures Correct(s.log, s.local, x) || x == snaps[next].thread ==> Correct(t.log, t.local, x)
    {
      ApplyCorrect(s.log, s.local, snaps[next], start, x);
    }
    assert Covered(scope, rank, t, start, s.back.token);
    assert SnapsWritten(t, start, snaps, next + 1);
    assert SnapsOk(t, start, snaps);
  }

  lemma CheckpointInv(scope: set<nat>, rank: nat -> nat, s: World)
    requires Inv(scope, rank, s) && s.back.BWriting? && s.back.next == |s.back.snaps|
    ensures Inv(scope, rank, Step(s, BackCheckpoint))
  {
    var start, token, snaps, nextToken := s.back.start, s.back.token, s.back.snaps, s.back.nextToken;
    forall t | t in scope && ThreadUntouched(s.log, t, start) && (nextToken.Some? ==> rank(t) < nextToken.value)
      ensures Correct(s.log, s.local, t)
    {
      if token <= rank(t) && HasMessages(s.log, t) {
        assert t in ThreadsOf(snaps);
        var i :| 0 <= i < |snaps| && snaps[i].thread == t;
      }
    }
  }

  lemma {:induction false} FetchInv(scope: set<nat>, rank: nat -> nat, s: World)
    requires Inv(scope, rank, s) && s.back.BFetching?
    ensures Inv(scope, rank, Step(s, BackFetch))
  {
    var t := Step(s, BackFetch);
    var snaps, items := s.back.snaps, s.back.items;
    if |snaps| < |items| {
      assert s.log[..|s.log|] == s.log;
      assert ThreadsOf(t.back.snaps) == ThreadsOf(snaps) + [items[|snaps|]];
    } else {
      assert ThreadsOf(snaps) == items;
    }
  }

  lemma StepInv(scope: set<nat>, rank: nat -> nat, s: World, e: Event)
    requires Inv(scope, rank, s) && (e.Provider? || IsBackfill(e)) && HonestStep(scope, rank, s, e)
    ensures Inv(scope, rank, Step(s, e))
  {
    match e
    case Provider(touch) => if CanFollow(s.log, touch) { ProviderInv(scope, rank, s, touch); }
    case BackFetch => if s.back.BFetching? { FetchInv(scope, rank, s); }
    case BackWrite => if s.back.BWriting? && s.back.next < |s.back.snaps| { WriteInv(scope, rank, s); }
    case BackCheckpoint =>
      if s.back.BWriting? && s.back.next == |s.back.snaps| { CheckpointInv(scope, rank, s); }
    case _ =>
  }

  predicate BackfillEvents(events: seq<Event>) {
    forall e | e in events :: e.Provider? || IsBackfill(e)
  }

  lemma {:induction false} RunInv(scope: set<nat>, rank: nat -> nat, s: World, events: seq<Event>)
    requires Inv(scope, rank, s) && BackfillEvents(events) && Honest(scope, rank, s, events)
    ensures Inv(scope, rank, Run(s, events))
    decreases events
  {
    if events != [] {
      assert events[0] in events;
      StepInv(scope, rank, s, events[0]);
      RunInv(scope, rank, Step(s, events[0]), events[1..]);
    }
  }

  /** Over any crashes and resumes, and with the provider changing meanwhile: when the cursor
      is written, every in-scope thread with no event after the saved pointer is stored. */
  lemma NoGapAtFinish(scope: set<nat>, rank: nat -> nat, s: World, events: seq<Event>)
    requires Inv(scope, rank, s) && BackfillEvents(events) && Honest(scope, rank, s, events)
    ensures var t := Run(s, events); t.back.BDone? ==>
      var u := Step(t, BackFinish);
      u.cursor == Some(t.back.start) && u.checkpoint.None?
      && NoGap(ByThread, scope, u.log, u.local, t.back.start)
  {
    RunInv(scope, rank, s, events);
    if Run(s, events).back.BDone? { DoneHasNoGap(scope, rank, Run(s, events)); }
  }

  lemma DoneHasNoGap(scope: set<nat>, rank: nat -> nat, t: World)
    requires Inv(scope, rank, t) && t.back.BDone?
    ensures NoGap(ByThread, scope, t.log, t.local, t.back.start)
  {
    forall m: nat | Exists(t.log, m) && ThreadOf(t.log, m) in scope && Quiet(ByThread, t.log, m, t.back.start)
      ensures Stored(t.log, t.local, m)
    {
      assert Correct(t.log, t.local, ThreadOf(t.log, m));
    }
  }

  // ---- What a backfill does not do ----

  lemma {:induction false} NothingRemoved(s: World, events: seq<Event>)
    requires BackfillEvents(events) && NoTombstones(s)
    ensures s.local.Keys <= Run(s, events).local.Keys && s.log <= Run(s, events).log
    ensures NoTombstones(Run(s, events))
    decreases events
  {
    if events != [] {
      assert events[0] in events;
      NothingRemoved(Step(s, events[0]), events[1..]);
    }
  }

  /** A backfill's own fetches never stand for a vanished thread. */
  ghost predicate NoTombstones(s: World) {
    (s.back.BFetching? || s.back.BWriting?) ==> forall i | 0 <= i < |s.back.snaps| :: !s.back.snaps[i].gone
  }

  /** What a backfill writes is either what existed, or has changed since. */
  ghost predicate OnlyReal(s: World, start: nat, before: set<nat>) {
    && start <= |s.log|
    && (forall m: nat | m in s.local && m !in before && Untouched(s.log, m, start) :: Exists(s.log, m))
    && (s.back.BProfiled? ==> s.back.start >= start)
    && (s.checkpoint.Some? ==> s.checkpoint.value.start >= start)
    && (s.back.BListing? || s.back.BFetching? || s.back.BWriting? ==> s.back.start >= start)
    && (s.back.BFetching? || s.back.BWriting? ==> SnapsOk(s, start, s.back.snaps))
  }

  lemma {:induction false} StepOnlyReal(s: World, e: Event, start: nat, before: set<nat>)
    requires WellFormed(s.log) && OnlyReal(s, start, before) && (e.Provider? || IsBackfill(e))
    ensures WellFormed(Step(s, e).log) && OnlyReal(Step(s, e), start, before)
  {
    var t := Step(s, e);
    match e
    case Provider(touch) =>
      if CanFollow(s.log, touch) {
        AppendWellFormed(s.log, touch);
        forall m: nat | Untouched(t.log, m, start)
          ensures Untouched(s.log, m, start) && Exists(t.log, m) == Exists(s.log, m)
        {
          AppendView(s.log, touch, m);
        }
        if s.back.BFetching? || s.back.BWriting? { SnapsAppend(s, touch, start, s.back.snaps); }
      }
    case BackWrite =>
      if t != s {
        var snap := s.back.snaps[s.back.next];
        forall m: nat | m in t.local && m !in s.local && Untouched(s.log, m, start) ensures Exists(s.log, m) {
          ApplyMessage(s.log, s.local, snap, m);
        }
      }
    case BackFetch =>
      assert s.log[..|s.log|] == s.log;
    case _ =>
  }

  lemma {:induction false} RunOnlyReal(s: World, events: seq<Event>, start: nat, before: set<nat>)
    requires WellFormed(s.log) && OnlyReal(s, start, before) && BackfillEvents(events)
    ensures WellFormed(Run(s, events).log) && OnlyReal(Run(s, events), start, before)
    decreases events
  {
    if events != [] {
      assert events[0] in events;
      StepOnlyReal(s, events[0], start, before);
      RunOnlyReal(Step(s, events[0]), events[1..], start, before);
    }
  }

  /** A backfill started on an idle mailbox leaves nothing stale exactly when nothing stored
      at its start was already gone: it adds only what exists, and removes nothing. */
  lemma {:induction false} StaleRowsStay(s: World, events: seq<Event>)
    requires WellFormed(s.log) && s.back.BIdle? && s.checkpoint.None? && BackfillEvents(events)
    ensures var t := Run(s, events);
      NoStale(t.log, t.local, |s.log|) <==>
      forall m: nat | m in s.local && Untouched(t.log, m, |s.log|) :: Exists(s.log, m)
  {
    var start := |s.log|;
    RunOnlyReal(s, events, start, s.local.Keys);
    NothingRemoved(s, events);
    var t := Run(s, events);
    forall m: nat | Untouched(t.log, m, start) ensures Exists(t.log, m) == Exists(s.log, m) {
      UntouchedView(t.log, m, start);
      assert t.log[..start] == s.log;
    }
  }
}
