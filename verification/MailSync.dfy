/** `runDelta` and `runBackfill` as procedures over one mailbox's rows
    (`apps/api/src/services/deltaSync.ts`, `sync.ts`), each proved to be a run of the state
    machine in `Mirror`, so that what is proved of all runs holds of them.
 */
module MailSync {
  import opened Common
  import opened HistoryFold
  import opened HistoryPages
  import opened Mirror
  import D = DeltaSync
  import B = Backfill

  datatype DeltaResult = NoCursor | NoChanges | CursorExpired | Deferred(fetched: nat) | Advanced(fetched: nat)

  lemma RunProviderOnly(s: World, events: seq<Event>)
    requires forall e | e in events :: e.Provider?
    ensures Run(s, events) == s.(log := Run(s, events).log) && s.log <= Run(s, events).log
    decreases events
  {
    if events != [] {
      assert events[0] in events;
      RunProviderOnly(Step(s, events[0]), events[1..]);
    }
  }

  /** Traces grow at the end. */
  function Extend(s: World, trace: seq<Event>, more: seq<Event>): (longer: seq<Event>)
    ensures longer == trace + more && Run(s, longer) == Run(Run(s, trace), more)
  {
    RunConcat(s, trace, more);
    trace + more
  }

  function ExtendOne(s: World, trace: seq<Event>, e: Event): (longer: seq<Event>)
    ensures longer == trace + [e] && Run(s, longer) == Step(Run(s, trace), e)
  {
    RunConcat(s, trace, [e]);
    RunOne(Run(s, trace), e);
    trace + [e]
  }

  // ---- What a job gets done when nothing else goes on ----

  /** The store holds every in-scope message of the mailbox as it is, and nothing that is gone. */
  ghost predicate IsMailbox(scope: set<nat>, log: Log, local: Store) {
    && (forall m: nat | Exists(log, m) && ThreadOf(log, m) in scope :: Stored(log, local, m))
    && (forall m: nat | m in local :: Exists(log, m))
  }

  lemma AtTheHead(level: Level, scope: set<nat>, s: World)
    requires D.Inv(level, scope, s) && s.cursor == Some(|s.log|)
    ensures IsMailbox(scope, s.log, s.local)
  {
    assert D.InSync(level, scope, s.log, s.local, |s.log|);
    assert forall m: nat :: Quiet(level, s.log, m, |s.log|);
  }

  /** `threads` are stored as they are; no row is removed, and none becomes wrong. */
  ghost predicate Filled(log: Log, was: Store, local: Store, threads: seq<nat>) {
    && (forall t | t in threads :: B.Correct(log, local, t))
    && (forall m: nat | m in was :: m in local)
    && (forall m: nat | m in local :: (m in was && local[m] == was[m]) || Stored(log, local, m))
  }

  lemma FilledNone(log: Log, local: Store)
    ensures Filled(log, local, local, [])
  {}

  lemma FilledMore(log: Log, a: Store, b: Store, c: Store, threads: seq<nat>, more: seq<nat>)
    requires Filled(log, a, b, threads) && Filled(log, b, c, more)
    ensures Filled(log, a, c, threads + more)
  {
    forall t | t in threads ensures B.Correct(log, c, t) {
      forall m: nat | Exists(log, m) && ThreadOf(log, m) == t ensures Stored(log, c, m) { assert Stored(log, b, m); }
    }
    forall m: nat | m in c ensures (m in a && c[m] == a[m]) || Stored(log, c, m) {
      if m in b && c[m] == b[m] && Stored(log, b, m) { assert Stored(log, c, m); }
    }
  }

  /** A thread fetched just now. */
  predicate TakenNow(log: Log, snap: Snap) {
    snap.rows == Snapshot(log, snap.thread) && !snap.gone
  }

  predicate AllTaken(log: Log, snaps: seq<Snap>) {
    forall snap | snap in snaps :: TakenNow(log, snap)
  }

  /** What happens while a job awaits is the provider's doing. */
  ghost predicate ByProvider(meanwhile: nat -> seq<Event>) {
    forall i: nat, e | e in meanwhile(i) :: e.Provider?
  }

  ghost predicate ByProviderOnly(meanwhile: (nat, nat) -> seq<Event>) {
    forall i: nat, j: nat, e | e in meanwhile(i, j) :: e.Provider?
  }

  /** The provider does nothing while a job awaits. */
  ghost predicate Still(meanwhile: nat -> seq<Event>) {
    forall i: nat :: meanwhile(i) == []
  }

  lemma ApplyFills(log: Log, local: Store, snap: Snap)
    requires TakenNow(log, snap)
    ensures Filled(log, local, Apply(local, snap), [snap.thread])
  {
    var after := Apply(local, snap);
    forall m: nat
      ensures Exists(log, m) && ThreadOf(log, m) == snap.thread ==> Stored(log, after, m)
      ensures m in after ==> (m in local && after[m] == local[m]) || Stored(log, after, m)
    {
      SnapshotIs(log, snap.thread, m);
    }
  }

  lemma FillsNext(log: Log, was: Store, local: Store, snaps: seq<Snap>, i: nat)
    requires i < |snaps| && TakenNow(log, snaps[i]) && Filled(log, was, local, B.ThreadsOf(snaps[..i]))
    ensures Filled(log, was, Apply(local, snaps[i]), B.ThreadsOf(snaps[..i + 1]))
  {
    ApplyFills(log, local, snaps[i]);
    FilledMore(log, was, local, Apply(local, snaps[i]), B.ThreadsOf(snaps[..i]), [snaps[i].thread]);
    assert B.ThreadsOf(snaps[..i + 1]) == B.ThreadsOf(snaps[..i]) + [snaps[i].thread];
  }

  /** The threads some pages of the listing name. */
  function Listed(pages: seq<(seq<nat>, Option<nat>)>): seq<nat> {
    if pages == [] then [] else Listed(pages[..|pages| - 1]) + pages[|pages| - 1].0
  }

  lemma ListsMore(log: Log, was: Store, before: Store, local: Store, pages: seq<(seq<nat>, Option<nat>)>, i: nat)
    requires i < |pages| && Filled(log, was, before, Listed(pages[..i])) && Filled(log, before, local, pages[i].0)
    ensures Filled(log, was, local, Listed(pages[..i + 1]))
  {
    FilledMore(log, was, before, local, Listed(pages[..i]), pages[i].0);
    assert pages[..i + 1][..i] == pages[..i];
  }

  /** Pages are read up to the first that names no next one; without such a page, all of them. */
  predicate UsedPages(pages: seq<(seq<nat>, Option<nat>)>, used: nat, finished: bool) {
    && used <= |pages| && (forall i | 0 <= i < used - 1 :: pages[i].1.Some?)
    && if finished then used > 0 && pages[used - 1].1.None? else used == |pages| && (used > 0 ==> pages[used - 1].1.Some?)
  }

  ghost predicate Silent(meanwhile: (nat, nat) -> seq<Event>) {
    forall i: nat, j: nat :: meanwhile(i, j) == []
  }

  /** One thread brought up to date: its messages stored as they are, its rows dropped when the
      provider no longer knows it, and no row of another thread changed. */
  ghost predicate ThreadSynced(log: Log, was: Store, local: Store, t: nat, notFound: bool) {
    && B.Correct(log, local, t)
    && (notFound && !B.HasMessages(log, t) ==> forall m: nat | m in local :: local[m].thread != t)
    && (forall m: nat | !(Exists(log, m) && ThreadOf(log, m) == t) && (m in was ==> was[m].thread != t) ::
          (m in local <==> m in was) && (m in was ==> local[m] == was[m]))
    && (forall m: nat | m in was && (!notFound || B.HasMessages(log, t)) :: m in local)
  }

  lemma PersistSyncs(log: Log, was: Store, snap: Snap, notFound: bool)
    requires snap.rows == Snapshot(log, snap.thread) && (snap.gone <==> notFound && snap.rows == map[])
    ensures ThreadSynced(log, was, Apply(was, snap), snap.thread, notFound)
  {
    var local := Apply(was, snap);
    forall m: nat
      ensures Exists(log, m) && ThreadOf(log, m) == snap.thread ==> Stored(log, local, m) && m in snap.rows
      ensures m in snap.rows ==> Exists(log, m) && ThreadOf(log, m) == snap.thread
    {
      SnapshotIs(log, snap.thread, m);
    }
    if B.HasMessages(log, snap.thread) {
      var m: nat :| Exists(log, m) && ThreadOf(log, m) == snap.thread;
      assert m in snap.rows;
    } else {
      assert snap.rows == map[];
    }
  }

  lemma WindowEmpty(log: Log, from: nat)
    requires WellFormed(log) && from <= |log|
    ensures Fold(log[from..]) == [] <==> from == |log|
  {
    var es := log[from..];
    assert FixedThreads(es) by { assert forall i | 0 <= i < |es| :: es[i] == log[from + i]; }
    if Fold(es) == [] { D.EmptyFold(es); }
  }

  /** What a delta over a window reports: nothing when no event is new, and otherwise whether
      threads were left over, with the number fetched. */
  ghost predicate WindowResult(s: World, result: DeltaResult, abortAt: Option<nat>)
    requires s.cursor.Some? && s.cursor.value <= |s.log|
  {
    var n := |Threads(Fold(s.log[s.cursor.value..]))|;
    && (result.NoChanges? || result.Deferred? || result.Advanced?)
    && (WellFormed(s.log) ==> (result.NoChanges? <==> s.cursor.value == |s.log|))
    && (result.Deferred? <==> n > MAX_THREADS_PER_DELTA)
    && (result.Advanced? && abortAt.None? ==> result.fetched == n)
    && (result.Deferred? && abortAt.None? ==> result.fetched == MAX_THREADS_PER_DELTA)
  }

  lemma DeltaKeeps(level: Level, scope: set<nat>, s: World, trace: seq<Event>)
    requires D.Inv(level, scope, s) && D.DeltaEvents(trace)
    ensures D.Inv(level, scope, Run(s, trace))
    ensures Run(s, trace).cursor == Some(|Run(s, trace).log|) ==> IsMailbox(scope, Run(s, trace).log, Run(s, trace).local)
  {
    D.MirrorInvariant(level, scope, s, trace);
    if Run(s, trace).cursor == Some(|Run(s, trace).log|) { AtTheHead(level, scope, Run(s, trace)); }
  }

  class Mailbox {
    var log: Log
    var local: Store
    var cursor: Option<nat>
    var checkpoint: Option<Checkpoint>
    var delta: DeltaPc
    var back: BackPc

    function State(): World
      reads this
    {
      World(log, local, cursor, checkpoint, delta, back)
    }

    constructor ()
      ensures State() == World([], map[], None, None, DIdle, BIdle)
    {
      log, local, cursor, checkpoint, delta, back := [], map[], None, None, DIdle, BIdle;
    }

    /** The mailbox changes at the provider while a job awaits. */
    method ProviderActs(events: seq<Event>)
      requires forall e | e in events :: e.Provider?
      modifies this`log
      ensures State() == Run(old(State()), events)
      ensures old(log) <= log
    {
      for i := 0 to |events|
        invariant State() == Run(old(State()), events[..i])
        invariant old(log) <= log
      {
        RunConcat(old(State()), events[..i], [events[i]]);
        RunOne(State(), events[i]);
        assert events[..i + 1] == events[..i] + [events[i]];
        var touch := events[i].touch;
        if CanFollow(log, touch) { log := log + [touch]; }
      }
      assert events[..|events|] == events;
    }

    /** One thread as the provider has it now. */
    method Fetch(notFound: bool)
      requires delta.DLoop? && delta.next < |delta.batch|
      modifies this`delta
      ensures State() == Step(old(State()), DeltaFetch(notFound))
      ensures delta.DFetched?
      ensures var pc := old(delta); delta == DFetched(pc.from, pc.upto, pc.batch, pc.next, pc.deferred, delta.snap)
      ensures delta.snap.thread == old(delta).batch[old(delta).next] && delta.snap.rows == Snapshot(log, delta.snap.thread)
      ensures delta.snap.gone <==> notFound && delta.snap.rows == map[]
    {
      var pc := delta;
      var thread := pc.batch[pc.next];
      var messages := Snapshot(log, thread);
      var gone := notFound && messages == map[];
      delta := DFetched(pc.from, pc.upto, pc.batch, pc.next, pc.deferred, Snap(thread, |log|, messages, gone));
    }

    /** The write that follows a fetch. */
    method Persist()
      requires delta.DFetched?
      modifies this`local, this`delta
      ensures State() == Step(old(State()), DeltaPersist)
      ensures var pc := old(delta); delta == DLoop(pc.from, pc.upto, pc.batch, pc.next + 1, pc.deferred)
      ensures local == Apply(old(local), old(delta).snap)
    {
      var pc := delta;
      if pc.snap.gone {
        local := map m | m in local && local[m].thread != pc.snap.thread :: local[m];
      } else {
        local := local + pc.snap.rows;
      }
      delta := DLoop(pc.from, pc.upto, pc.batch, pc.next + 1, pc.deferred);
    }

    /** Fetch one thread and write it, or drop it when the provider answers 404. */
    method SyncOneThread(notFound: bool, meanwhile: seq<Event>) returns (trace: seq<Event>)
      requires delta.DLoop? && delta.next < |delta.batch| && forall e | e in meanwhile :: e.Provider?
      modifies this
      ensures State() == Run(old(State()), trace) && D.DeltaEvents(trace)
      ensures delta == DLoop(old(delta).from, old(delta).upto, old(delta).batch, old(delta).next + 1, old(delta).deferred)
      ensures cursor == old(cursor) && old(log) <= log
      ensures meanwhile == [] ==>
        log == old(log) && ThreadSynced(log, old(local), local, old(delta).batch[old(delta).next], notFound)
    {
      var start := State();
      trace := ExtendOne(start, [], DeltaFetch(notFound));
      Fetch(notFound);
      PersistSyncs(log, local, delta.snap, notFound);
      ProviderActs(meanwhile);
      RunProviderOnly(Run(start, trace), meanwhile);
      trace := Extend(start, trace, meanwhile);
      trace := ExtendOne(start, trace, DeltaPersist);
      Persist();
    }

    /** The loop over the batch, left early when the signal is found aborted. */
    method SyncBatch(abortAt: Option<nat>, notFound: nat -> bool, meanwhile: nat -> seq<Event>)
      returns (fetched: nat, trace: seq<Event>)
      requires delta.DLoop? && delta.next == 0 && ByProvider(meanwhile)
      modifies this
      ensures State() == Run(old(State()), trace) && cursor == old(cursor)
      ensures fetched <= |old(delta).batch|
      ensures delta == DLoop(old(delta).from, old(delta).upto, old(delta).batch[..fetched], fetched, old(delta).deferred)
      ensures abortAt.None? ==> fetched == |old(delta).batch| && D.DeltaEvents(trace)
      ensures Still(meanwhile) ==> log == old(log)
    {
      var start, pc := State(), delta;
      trace, fetched := [], 0;
      while fetched < |pc.batch|
        invariant fetched <= |pc.batch|
        invariant State() == Run(start, trace) && cursor == old(cursor)
        invariant delta == DLoop(pc.from, pc.upto, pc.batch, fetched, pc.deferred)
        invariant abortAt.None? ==> D.DeltaEvents(trace)
        invariant Still(meanwhile) ==> log == old(log)
      {
        if abortAt == Some(fetched) {
          trace := ExtendOne(start, trace, DeltaAbort);
          delta := DLoop(pc.from, pc.upto, pc.batch[..fetched], fetched, pc.deferred);
          return;
        }
        var more := SyncOneThread(notFound(fetched), meanwhile(fetched));
        trace := Extend(start, trace, more);
        fetched := fetched + 1;
      }
      assert pc.batch[..fetched] == pc.batch;
    }

    /** The cursor moves last, unless threads were deferred. */
    method CommitCursor()
      requires delta.DLoop? && delta.next == |delta.batch|
      modifies this`cursor, this`delta
      ensures State() == Step(old(State()), DeltaCommit) && delta.DIdle?
      ensures cursor == if old(delta).deferred then old(cursor) else Some(old(delta).upto)
    {
      if !delta.deferred { cursor := Some(delta.upto); }
      delta := DIdle;
    }

    /** Read the window and fold it; an empty one moves the cursor at once. */
    method ReadWindow(pages: seq<Page>) returns (changed: bool)
      requires delta.DIdle? && cursor.Some? && cursor.value <= |log|
      requires PagesTouches(pages) == log[cursor.value..] && pages != [] && pages[|pages| - 1].historyId == Some(|log|)
      modifies this`cursor, this`delta
      ensures State() == Step(old(State()), DeltaStart)
      ensures changed <==> Fold(log[old(cursor).value..]) != []
      ensures !changed ==> delta.DIdle? && cursor == Some(|log|)
      ensures changed ==> cursor == old(cursor) && delta == DRead(
        cursor.value, |log|, Threads(Fold(log[cursor.value..])), DeletedIds(Fold(log[cursor.value..])))
    {
      var changes, newCursor := SyncDelta(pages, cursor.value);
      changed := |changes| != 0;
      if !changed {
        cursor := Some(newCursor);
        return;
      }
      var threadIds, deletedMessageIds := FoldChanges(changes);
      delta := DRead(cursor.value, newCursor, threadIds, deletedMessageIds);
    }

    /** Remove what the window deleted, and take the first forty threads. */
    method DeleteGone() returns (deferred: nat)
      requires delta.DRead?
      modifies this`local, this`delta
      ensures State() == Step(old(State()), DeltaDelete)
      ensures deferred > 0 <==> |old(delta).threads| > MAX_THREADS_PER_DELTA
      ensures delta == DLoop(old(delta).from, old(delta).upto, FirstForty(old(delta).threads), 0, deferred > 0)
      ensures forall m: nat :: m in local <==> m in old(local) && m !in old(delta).deleted
      ensures forall m: nat | m in local :: local[m] == old(local)[m]
    {
      local := Remove(local, delta.deleted);
      var batch := FirstForty(delta.threads);
      deferred := |delta.threads| - |batch|;
      delta := DLoop(delta.from, delta.upto, batch, 0, deferred > 0);
    }

    /** `runDelta`. `pages` is any paging of the history since the cursor; `abortAt` is the
        iteration at which the signal is found aborted; `meanwhile(i)` is what the provider
        does while the i-th thread is awaited. At either level, and for any set of threads in
        scope, a delta that is not aborted keeps the mirror invariant; with a quiet provider and
        at most forty threads it leaves the store equal to the in-scope mailbox. */
    method RunDelta(pages: seq<Page>, expired: bool, abortAt: Option<nat>, notFound: nat -> bool,
                    meanwhile: nat -> seq<Event>, ghost level: Level, ghost scope: set<nat>)
      returns (result: DeltaResult, trace: seq<Event>)
      requires delta.DIdle? && (cursor.Some? ==> cursor.value <= |log|)
      requires cursor.Some? && !expired ==>
        PagesTouches(pages) == log[cursor.value..] && pages != [] && pages[|pages| - 1].historyId == Some(|log|)
      requires ByProvider(meanwhile)
      modifies this
      ensures State() == Run(old(State()), trace) && delta.DIdle?
      ensures abortAt.None? ==> D.DeltaEvents(trace)
      ensures result == NoCursor <==> old(cursor).None?
      ensures result.NoCursor? ==> State() == old(State())
      ensures result.CursorExpired? <==> old(cursor).Some? && expired
      ensures result.CursorExpired? ==> cursor.None?
      ensures old(cursor).Some? && !expired ==>
        WindowResult(old(State()), result, abortAt) && cursor == if result.Deferred? then old(cursor) else Some(|old(log)|)
      ensures D.Inv(level, scope, old(State())) && abortAt.None? ==> D.Inv(level, scope, State())
      ensures D.Inv(level, scope, old(State())) && abortAt.None? && Still(meanwhile) ==>
        log == old(log) && (result.NoChanges? || result.Advanced? ==> IsMailbox(scope, log, local))
    {
      var start := State();
      if cursor.None? { return NoCursor, []; }
      if expired {
        trace := ExtendOne(start, [], DeltaExpired);
        cursor := None;
        result := CursorExpired;
      } else {
        result, trace := SyncWindow(pages, abortAt, notFound, meanwhile);
      }
      if D.Inv(level, scope, start) && abortAt.None? { DeltaKeeps(level, scope, start, trace); }
    }

    /** From the history to the cursor write. */
    method SyncWindow(pages: seq<Page>, abortAt: Option<nat>, notFound: nat -> bool, meanwhile: nat -> seq<Event>)
      returns (result: DeltaResult, trace: seq<Event>)
      requires delta.DIdle? && cursor.Some? && cursor.value <= |log|
      requires PagesTouches(pages) == log[cursor.value..] && pages != [] && pages[|pages| - 1].historyId == Some(|log|)
      requires ByProvider(meanwhile)
      modifies this
      ensures State() == Run(old(State()), trace) && delta.DIdle?
      ensures abortAt.None? ==> D.DeltaEvents(trace)
      ensures WindowResult(old(State()), result, abortAt)
      ensures cursor == if result.Deferred? then old(cursor) else Some(|old(log)|)
      ensures Still(meanwhile) ==> log == old(log)
    {
      var start := State();
      trace := ExtendOne(start, [], DeltaStart);
      if WellFormed(log) { WindowEmpty(log, cursor.value); }
      var changed := ReadWindow(pages);
      if !changed { return NoChanges, trace; }
      trace := ExtendOne(start, trace, DeltaDelete);
      var deferred := DeleteGone();
      var fetched, more := SyncAndCommit(abortAt, notFound, meanwhile);
      trace := Extend(start, trace, more);
      result := if deferred > 0 then Deferred(fetched) else Advanced(fetched);
    }

    /** The loop and the cursor write it falls through to. */
    method SyncAndCommit(abortAt: Option<nat>, notFound: nat -> bool, meanwhile: nat -> seq<Event>)
      returns (fetched: nat, trace: seq<Event>)
      requires delta.DLoop? && delta.next == 0 && ByProvider(meanwhile)
      modifies this
      ensures State() == Run(old(State()), trace) && delta.DIdle?
      ensures abortAt.None? ==> D.DeltaEvents(trace)
      ensures cursor == if old(delta).deferred then old(cursor) else Some(old(delta).upto)
      ensures fetched <= |old(delta).batch| && (abortAt.None? ==> fetched == |old(delta).batch|)
      ensures Still(meanwhile) ==> log == old(log)
    {
      var start := State();
      fetched, trace := SyncBatch(abortAt, notFound, meanwhile);
      trace := ExtendOne(start, trace, DeltaCommit);
      CommitCursor();
    }

    method FetchAll(meanwhile: nat -> seq<Event>) returns (trace: seq<Event>)
      requires back.BFetching? && back.snaps == [] && ByProvider(meanwhile)
      modifies this
      ensures State() == Run(old(State()), trace) && B.BackfillEvents(trace)
      ensures back.BWriting? && back == BWriting(old(back).start, old(back).token, back.snaps, 0, old(back).nextToken)
      ensures cursor == old(cursor) && checkpoint == old(checkpoint) && local == old(local)
      ensures B.ThreadsOf(back.snaps) == old(back).items
      ensures Still(meanwhile) ==> log == old(log) && AllTaken(log, back.snaps)
    {
      var start, pc := State(), back;
      trace := [];
      var snaps: seq<Snap> := [];
      while |snaps| < |pc.items|
        invariant |snaps| <= |pc.items|
        invariant back == BFetching(pc.start, pc.token, pc.items, snaps, pc.nextToken)
        invariant State() == Run(start, trace) && B.BackfillEvents(trace)
        invariant cursor == old(cursor) && checkpoint == old(checkpoint) && local == old(local)
        invariant B.ThreadsOf(snaps) == pc.items[..|snaps|]
        invariant Still(meanwhile) ==> log == old(log) && AllTaken(log, snaps)
        decreases |pc.items| - |snaps|
      {
        trace := Extend(start, trace, meanwhile(|snaps|));
        ProviderActs(meanwhile(|snaps|));
        trace := ExtendOne(start, trace, BackFetch);
        var thread := pc.items[|snaps|];
        snaps := snaps + [Snap(thread, |log|, Snapshot(log, thread), false)];
        back := BFetching(pc.start, pc.token, pc.items, snaps, pc.nextToken);
      }
      trace := ExtendOne(start, trace, BackFetch);
      back := BWriting(pc.start, pc.token, snaps, 0, pc.nextToken);
    }

    method WriteNext()
      requires back.BWriting? && back.next < |back.snaps|
      modifies this`local, this`back
      ensures State() == Step(old(State()), BackWrite)
      ensures local == Apply(old(local), old(back).snaps[old(back).next])
      ensures var pc := old(back); back == BWriting(pc.start, pc.token, pc.snaps, pc.next + 1, pc.nextToken)
    {
      local := Apply(local, back.snaps[back.next]);
      back := BWriting(back.start, back.token, back.snaps, back.next + 1, back.nextToken);
    }

    method WriteAll() returns (trace: seq<Event>)
      requires back.BWriting? && back.next == 0
      modifies this`local, this`back
      ensures State() == Run(old(State()), trace) && B.BackfillEvents(trace)
      ensures back == BWriting(old(back).start, old(back).token, old(back).snaps, |old(back).snaps|, old(back).nextToken)
      ensures AllTaken(log, old(back).snaps) ==>
        Filled(log, old(local), local, B.ThreadsOf(old(back).snaps))
    {
      var start, pc := State(), back;
      trace := [];
      var i := 0;
      FilledNone(log, local);
      while i < |pc.snaps|
        invariant i <= |pc.snaps| && back == BWriting(pc.start, pc.token, pc.snaps, i, pc.nextToken)
        invariant State() == Run(start, trace) && B.BackfillEvents(trace)
        invariant AllTaken(log, pc.snaps) ==>
          Filled(log, old(local), local, B.ThreadsOf(pc.snaps[..i]))
      {
        if AllTaken(log, pc.snaps) {
          FillsNext(log, old(local), local, pc.snaps, i);
        }
        trace := ExtendOne(start, trace, BackWrite);
        WriteNext();
        i := i + 1;
      }
      assert pc.snaps[..|pc.snaps|] == pc.snaps;
    }

    /** One page of the backfill: list, fetch all, write all, checkpoint. */
    method BackfillPage(items: seq<nat>, nextToken: Option<nat>, meanwhile: nat -> seq<Event>)
      returns (trace: seq<Event>)
      requires back.BListing? && ByProvider(meanwhile)
      modifies this
      ensures State() == Run(old(State()), trace) && B.BackfillEvents(trace)
      ensures back == if nextToken.Some? then BListing(old(back).start, nextToken.value) else BDone(old(back).start)
      ensures checkpoint == Some(Checkpoint(old(back).start, if nextToken.Some? then nextToken.value else 0))
      ensures cursor == old(cursor)
      ensures Still(meanwhile) ==> log == old(log) && Filled(log, old(local), local, items)
    {
      var start, pointer := State(), back.start;
      trace := ExtendOne(start, [], BackList(items, nextToken));
      back := BFetching(pointer, back.token, items, [], nextToken);
      var fetches := FetchAll(meanwhile);
      trace := Extend(start, trace, fetches);
      var writes := WriteAll();
      trace := Extend(start, trace, writes);
      trace := ExtendOne(start, trace, BackCheckpoint);
      Checkpointed(pointer, nextToken);
    }

    method Checkpointed(pointer: nat, nextToken: Option<nat>)
      requires back.BWriting? && back.next == |back.snaps| && back.start == pointer && back.nextToken == nextToken
      modifies this`back, this`checkpoint
      ensures State() == Step(old(State()), BackCheckpoint)
      ensures back == if nextToken.Some? then BListing(pointer, nextToken.value) else BDone(pointer)
      ensures checkpoint == Some(Checkpoint(pointer, if nextToken.Some? then nextToken.value else 0))
    {
      var token := if nextToken.Some? then nextToken.value else 0;
      checkpoint := Some(Checkpoint(pointer, token));
      back := if nextToken.Some? then BListing(pointer, token) else BDone(pointer);
    }

    /** Resume from the checkpoint, or save a fresh pointer. */
    method OpenBackfill() returns (pointer: nat, trace: seq<Event>)
      requires back.BIdle?
      modifies this`back, this`checkpoint
      ensures State() == Run(old(State()), trace) && B.BackfillEvents(trace)
      ensures back.BListing? && back.start == pointer && checkpoint.Some? && checkpoint.value.start == pointer
      ensures back.token == if old(checkpoint).Some? then old(checkpoint).value.token else 0
      ensures pointer == if old(checkpoint).Some? then old(checkpoint).value.start else |log|
    {
      if checkpoint.Some? {
        trace := [BackStart];
        RunOne(State(), BackStart);
        pointer := checkpoint.value.start;
        back := BListing(pointer, checkpoint.value.token);
      } else {
        pointer := |log|;
        trace := [BackStart, BackSave];
        RunTwo(State(), BackStart, BackSave);
        checkpoint := Some(Checkpoint(pointer, 0));
        back := BListing(pointer, 0);
      }
    }

    /** `runBackfill`, resuming from the checkpoint when there is one; the listing's answers
        are `pages`, and running out of them is an attempt that failed on the way. It finishes
        with the first page that names no next one; with a quiet provider every thread listed up
        to there is stored as it is, and no row is removed. */
    method RunBackfill(pages: seq<(seq<nat>, Option<nat>)>, meanwhile: (nat, nat) -> seq<Event>)
      returns (finished: bool, trace: seq<Event>, ghost used: nat)
      requires back.BIdle? && ByProviderOnly(meanwhile)
      modifies this
      ensures State() == Run(old(State()), trace) && B.BackfillEvents(trace) && back.BIdle?
      ensures finished ==> checkpoint.None? && cursor == Some(
        if old(checkpoint).Some? then old(checkpoint).value.start else |old(log)|)
      ensures !finished ==> cursor == old(cursor) && checkpoint.Some?
      ensures !finished ==>
        checkpoint.value.start == if old(checkpoint).Some? then old(checkpoint).value.start else |old(log)|
      ensures UsedPages(pages, used, finished)
      ensures Silent(meanwhile) ==> log == old(log) && Filled(log, old(local), local, Listed(pages[..used]))
    {
      var start := State();
      var pointer;
      pointer, trace := OpenBackfill();
      var more, pagesUsed := FillPages(pointer, pages, meanwhile);
      used := pagesUsed;
      trace := Extend(start, trace, more);
      finished := back.BDone?;
      var last := if finished then BackFinish else BackCrash;
      trace := ExtendOne(start, trace, last);
      if finished { cursor, checkpoint := Some(pointer), None; }
      back := BIdle;
    }

    /** The do-while over pages. */
    method FillPages(pointer: nat, pages: seq<(seq<nat>, Option<nat>)>, meanwhile: (nat, nat) -> seq<Event>)
      returns (trace: seq<Event>, used: nat)
      requires back.BListing? && back.start == pointer && checkpoint.Some? && checkpoint.value.start == pointer
      requires ByProviderOnly(meanwhile)
      modifies this
      ensures State() == Run(old(State()), trace) && B.BackfillEvents(trace)
      ensures (back.BDone? || back.BListing?) && back.start == pointer && cursor == old(cursor)
      ensures checkpoint.Some? && checkpoint.value.start == pointer
      ensures UsedPages(pages, used, back.BDone?)
      ensures Silent(meanwhile) ==> log == old(log) && Filled(log, old(local), local, Listed(pages[..used]))
    {
      var start := State();
      trace, used := [], 0;
      FilledNone(log, local);
      while back.BListing? && used < |pages|
        invariant used <= |pages| && (back.BDone? || back.BListing?) && back.start == pointer
        invariant State() == Run(start, trace) && B.BackfillEvents(trace)
        invariant checkpoint.Some? && checkpoint.value.start == pointer && cursor == old(cursor)
        invariant if back.BDone? then UsedPages(pages, used, true) else forall k | 0 <= k < used :: pages[k].1.Some?
        invariant Silent(meanwhile) ==> log == old(log) && Filled(log, old(local), local, Listed(pages[..used]))
        decreases |pages| - used
      {
        ghost var before := local;
        var here := (j: nat) => meanwhile(used, j);
        assert ByProvider(here) && (Silent(meanwhile) ==> Still(here));
        var more := BackfillPage(pages[used].0, pages[used].1, here);
        trace := Extend(start, trace, more);
        if Silent(meanwhile) { ListsMore(log, old(local), before, local, pages, used); }
        used := used + 1;
      }
    }
  }
}
