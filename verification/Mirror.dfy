/** The mailbox mirror: a provider that keeps an append-only history, a local store, and the
    two jobs that write it (`apps/api/src/services/deltaSync.ts`, `sync.ts`).

    Every provider event, provider read and database write is one step, and a job can stop
    between any two of them. A history position is the number of events before it.
 */
module Mirror {
  import opened Common
  import opened HistoryFold

  type Log = seq<Touch>

  /** A stored message: its thread, and how many events its content reflects. */
  datatype Row = Row(thread: nat, version: nat)

  type Store = map<nat, Row>

  // ---- What the provider holds after a history ----

  function Exists(log: Log, m: nat): bool {
    LastAddOrDelete(log, m).Some? && LastAddOrDelete(log, m).value.Added?
  }

  function Version(log: Log, m: nat): nat {
    if log == [] then 0 else Version(log[..|log| - 1], m) + if log[|log| - 1].message == m then 1 else 0
  }

  function ThreadOf(log: Log, m: nat): nat {
    if log == [] then 0
    else if log[|log| - 1].message == m then log[|log| - 1].thread
    else ThreadOf(log[..|log| - 1], m)
  }

  function View(log: Log, m: nat): Option<Row> {
    if Exists(log, m) then Some(Row(ThreadOf(log, m), Version(log, m))) else None
  }

  /** An event can follow a history: a message is added once at a time, and only a message
      that exists can be deleted or labelled. */
  predicate CanFollow(log: Log, e: Touch) {
    && (Touches(log, e.message) ==> e.thread == ThreadOf(log, e.message))
    && (e.Added? <==> !Exists(log, e.message))
  }

  ghost predicate WellFormed(log: Log) {
    && FixedThreads(log)
    && forall k | 0 <= k < |log| :: CanFollow(log[..k], log[k])
  }

  /** What fetching a thread returns. */
  function Snapshot(log: Log, t: nat): Store {
    map m | m in MessagesOf(log) && Exists(log, m) && ThreadOf(log, m) == t :: Row(t, Version(log, m))
  }

  function MessagesOf(log: Log): set<nat> {
    set k | 0 <= k < |log| :: log[k].message
  }

  // ---- Agreement between the store and the provider ----

  predicate Untouched(log: Log, m: nat, since: nat) {
    forall k | since <= k < |log| :: log[k].message != m
  }

  predicate ThreadUntouched(log: Log, t: nat, since: nat) {
    forall k | since <= k < |log| :: log[k].thread != t
  }

  /** A disagreement is excused by a later event on the message, or on its thread. */
  datatype Level = ByMessage | ByThread

  predicate Quiet(level: Level, log: Log, m: nat, since: nat) {
    match level
    case ByMessage => Untouched(log, m, since)
    case ByThread => ThreadUntouched(log, ThreadOf(log, m), since)
  }

  predicate Stored(log: Log, local: Store, m: nat) {
    m in local && View(log, m) == Some(local[m])
  }

  /** No gap: an in-scope message of the provider is stored as it is, or is excused. */
  ghost predicate NoGap(level: Level, scope: set<nat>, log: Log, local: Store, since: nat) {
    forall m: nat | Exists(log, m) && ThreadOf(log, m) in scope && Quiet(level, log, m, since) ::
      Stored(log, local, m)
  }

  /** Nothing stale: a stored message still exists, or has a later event. */
  ghost predicate NoStale(log: Log, local: Store, since: nat) {
    forall m: nat | m in local && Untouched(log, m, since) :: Exists(log, m)
  }

  // ---- The state machine ----

  const MAX_THREADS_PER_DELTA := 40

  datatype Snap = Snap(thread: nat, at: nat, rows: Store, gone: bool)

  /** Where `runDelta` stands: reading window `[from, upto)`, then deleting, then its loop. */
  datatype DeltaPc =
    | DIdle
    | DRead(from: nat, upto: nat, threads: seq<nat>, deleted: seq<nat>)
    | DLoop(from: nat, upto: nat, batch: seq<nat>, next: nat, deferred: bool)
    | DFetched(from: nat, upto: nat, batch: seq<nat>, next: nat, deferred: bool, snap: Snap)

  /** Where `runBackfill` stands; `start` is the history pointer it will write at the end and
      `token` the position in the listing its page begins at. */
  datatype BackPc =
    | BIdle
    | BProfiled(start: nat)
    | BListing(start: nat, token: nat)
    | BFetching(start: nat, token: nat, items: seq<nat>, snaps: seq<Snap>, nextToken: Option<nat>)
    | BWriting(start: nat, token: nat, snaps: seq<Snap>, next: nat, nextToken: Option<nat>)
    | BDone(start: nat)

  datatype Checkpoint = Checkpoint(start: nat, token: nat)

  datatype World = World(
    log: Log, local: Store, cursor: Option<nat>, checkpoint: Option<Checkpoint>,
    delta: DeltaPc, back: BackPc)

  datatype Event =
    | Provider(touch: Touch)
    | DeltaStart | DeltaExpired | DeltaDelete | DeltaFetch(notFound: bool) | DeltaPersist
    | DeltaAbort | DeltaCommit | DeltaCrash
    | BackStart | BackSave | BackList(items: seq<nat>, nextToken: Option<nat>) | BackFetch
    | BackWrite | BackCheckpoint | BackFinish | BackCrash

  function FirstForty(threads: seq<nat>): seq<nat> {
    threads[..Min(MAX_THREADS_PER_DELTA, |threads|)]
  }

  function Remove(local: Store, ids: seq<nat>): Store {
    map m | m in local && m !in ids :: local[m]
  }

  /** Writing a fetched thread: upsert its messages, or drop its rows when it answered 404. */
  function Apply(local: Store, snap: Snap): Store {
    if snap.gone then map m | m in local && local[m].thread != snap.thread :: local[m]
    else local + snap.rows
  }

  function DeltaStep(s: World, e: Event): World {
    match e
    case DeltaStart =>
      if !s.delta.DIdle? || s.cursor.None? || s.cursor.value > |s.log| then s
      else
        var changes := Fold(s.log[s.cursor.value..]);
        if changes == [] then s.(cursor := Some(|s.log|))
        else s.(delta := DRead(s.cursor.value, |s.log|, Threads(changes), DeletedIds(changes)))
    case DeltaExpired =>
      if s.delta.DIdle? then s.(cursor := None) else s
    case DeltaDelete =>
      if !s.delta.DRead? then s
      else
        s.(local := Remove(s.local, s.delta.deleted),
           delta := DLoop(s.delta.from, s.delta.upto, FirstForty(s.delta.threads), 0,
                          |s.delta.threads| > MAX_THREADS_PER_DELTA))
    case DeltaFetch(notFound) =>
      if !s.delta.DLoop? || s.delta.next >= |s.delta.batch| then s
      else
        var t := s.delta.batch[s.delta.next];
        var rows := Snapshot(s.log, t);
        s.(delta := DFetched(s.delta.from, s.delta.upto, s.delta.batch, s.delta.next, s.delta.deferred,
                             Snap(t, |s.log|, rows, notFound && rows == map[])))
    case DeltaPersist =>
      if !s.delta.DFetched? then s
      else
        s.(local := Apply(s.local, s.delta.snap),
           delta := DLoop(s.delta.from, s.delta.upto, s.delta.batch, s.delta.next + 1, s.delta.deferred))
    case DeltaAbort =>
      // `if (signal?.aborted) break;` leaves the loop for the code below it.
      if !s.delta.DLoop? || s.delta.next >= |s.delta.batch| then s
      else
        s.(delta := DLoop(s.delta.from, s.delta.upto, s.delta.batch[..s.delta.next], s.delta.next, s.delta.deferred))
    case DeltaCommit =>
      if !s.delta.DLoop? || s.delta.next != |s.delta.batch| then s
      else s.(cursor := if s.delta.deferred then s.cursor else Some(s.delta.upto), delta := DIdle)
    case DeltaCrash => s.(delta := DIdle)
    case _ => s
  }

  function BackStep(s: World, e: Event): World {
    match e
    case BackStart =>
      if !s.back.BIdle? then s
      else if s.checkpoint.Some? then
        s.(back := BListing(s.checkpoint.value.start, s.checkpoint.value.token))
      else s.(back := BProfiled(|s.log|))
    case BackSave =>
      if !s.back.BProfiled? then s
      else s.(checkpoint := Some(Checkpoint(s.back.start, 0)), back := BListing(s.back.start, 0))
    case BackList(items, nextToken) =>
      if !s.back.BListing? then s
      else s.(back := BFetching(s.back.start, s.back.token, items, [], nextToken))
    case BackFetch =>
      if !s.back.BFetching? then s
      else if |s.back.snaps| < |s.back.items| then
        var t := s.back.items[|s.back.snaps|];
        s.(back := BFetching(s.back.start, s.back.token, s.back.items,
                             s.back.snaps + [Snap(t, |s.log|, Snapshot(s.log, t), false)], s.back.nextToken))
      else s.(back := BWriting(s.back.start, s.back.token, s.back.snaps, 0, s.back.nextToken))
    case BackWrite =>
      if !s.back.BWriting? || s.back.next >= |s.back.snaps| then s
      else
        s.(local := Apply(s.local, s.back.snaps[s.back.next]),
           back := BWriting(s.back.start, s.back.token, s.back.snaps, s.back.next + 1, s.back.nextToken))
    case BackCheckpoint =>
      if !s.back.BWriting? || s.back.next != |s.back.snaps| then s
      else
        var token := if s.back.nextToken.Some? then s.back.nextToken.value else 0;
        s.(checkpoint := Some(Checkpoint(s.back.start, token)),
           back := if s.back.nextToken.Some? then BListing(s.back.start, token) else BDone(s.back.start))
    case BackFinish =>
      if !s.back.BDone? then s
      else s.(cursor := Some(s.back.start), checkpoint := None, back := BIdle)
    case BackCrash => s.(back := BIdle)
    case _ => s
  }

  predicate IsDelta(e: Event) {
    e.DeltaStart? || e.DeltaExpired? || e.DeltaDelete? || e.DeltaFetch? || e.DeltaPersist?
    || e.DeltaAbort? || e.DeltaCommit? || e.DeltaCrash?
  }

  function Step(s: World, e: Event): World {
    if e.Provider? then (if CanFollow(s.log, e.touch) then s.(log := s.log + [e.touch]) else s)
    else if IsDelta(e) then DeltaStep(s, e)
    else BackStep(s, e)
  }

  function Run(s: World, events: seq<Event>): World
    decreases events
  {
    if events == [] then s else Run(Step(s, events[0]), events[1..])
  }

  lemma {:induction false} RunConcat(s: World, a: seq<Event>, b: seq<Event>)
    ensures Run(s, a + b) == Run(Run(s, a), b)
    decreases a
  {
    if a == [] {
      assert a + b == b;
    } else {
      assert (a + b)[1..] == a[1..] + b;
      RunConcat(Step(s, a[0]), a[1..], b);
    }
  }

  lemma RunOne(s: World, e: Event)
    ensures Run(s, [e]) == Step(s, e)
  {
    assert [e][1..] == [];
  }

  lemma RunTwo(s: World, e: Event, f: Event)
    ensures Run(s, [e, f]) == Step(Step(s, e), f)
  {
    assert [e, f][1..] == [f];
    RunOne(Step(s, e), f);
  }

  lemma RunFour(s: World, e: Event, f: Event, g: Event, h: Event)
    ensures Run(s, [e, f, g, h]) == Step(Step(Step(Step(s, e), f), g), h)
  {
    assert [e, f, g, h] == [e, f] + [g, h];
    RunConcat(s, [e, f], [g, h]);
    RunTwo(s, e, f);
    RunTwo(Run(s, [e, f]), g, h);
  }

  // ---- Facts about histories ----

  lemma {:induction false} UntouchedView(log: Log, m: nat, q: nat)
    requires q <= |log| && Untouched(log, m, q)
    ensures LastAddOrDelete(log[..q], m) == LastAddOrDelete(log, m)
    ensures Version(log[..q], m) == Version(log, m) && ThreadOf(log[..q], m) == ThreadOf(log, m)
    ensures View(log[..q], m) == View(log, m)
    decreases |log|
  {
    if q < |log| {
      var shorter := log[..|log| - 1];
      UntouchedView(shorter, m, q);
      assert shorter[..q] == log[..q];
    } else {
      assert log[..q] == log;
    }
  }

  lemma {:induction false} ThreadOfTouched(log: Log, m: nat)
    requires FixedThreads(log)
    ensures forall k | 0 <= k < |log| && log[k].message == m :: log[k].thread == ThreadOf(log, m)
    ensures Touches(log, m) ==> exists k :: 0 <= k < |log| && log[k].message == m && log[k].thread == ThreadOf(log, m)
  {
    if log != [] {
      var shorter := log[..|log| - 1];
      ThreadOfTouched(shorter, m);
      TouchesLast(log, m);
      if log[|log| - 1].message != m && Touches(log, m) {
        var k :| 0 <= k < |shorter| && shorter[k].message == m && shorter[k].thread == ThreadOf(shorter, m);
        assert log[k] == shorter[k];
      }
    }
  }

  lemma {:induction false} ExistsTouches(log: Log, m: nat)
    requires Exists(log, m)
    ensures Touches(log, m) && m in MessagesOf(log)
  {
    if !Touches(log, m) { NoTouchNoLast(log, m); }
  }

  lemma WellFormedPrefix(log: Log, q: nat)
    requires WellFormed(log) && q <= |log|
    ensures WellFormed(log[..q])
  {
    forall k | 0 <= k < q ensures CanFollow(log[..q][..k], log[..q][k]) {
      assert log[..q][..k] == log[..k];
    }
  }

  /** A quiet thread is a quiet message. */
  lemma QuietUntouched(level: Level, log: Log, m: nat, since: nat)
    requires WellFormed(log) && Quiet(level, log, m, since)
    ensures Untouched(log, m, since)
  {
    ThreadOfTouched(log, m);
  }

  lemma SnapshotIs(log: Log, t: nat, m: nat)
    ensures m in Snapshot(log, t) <==> Exists(log, m) && ThreadOf(log, m) == t
    ensures m in Snapshot(log, t) ==> Snapshot(log, t)[m] == Row(t, Version(log, m)) && View(log, m) == Some(Snapshot(log, t)[m])
  {
    if Exists(log, m) { ExistsTouches(log, m); }
  }

  /** A new event leaves every other message as it was, and excuses its own. */
  lemma AppendView(log: Log, e: Touch, m: nat)
    ensures m != e.message ==> View(log + [e], m) == View(log, m)
    ensures m != e.message ==> ThreadOf(log + [e], m) == ThreadOf(log, m) && Exists(log + [e], m) == Exists(log, m)
    ensures forall since: nat | since <= |log| && Untouched(log + [e], m, since) :: m != e.message && Untouched(log, m, since)
    ensures forall t: nat, since: nat | ThreadUntouched(log + [e], t, since) :: ThreadUntouched(log, t, since)
    ensures forall t: nat, since: nat | since <= |log| && ThreadUntouched(log + [e], t, since) :: t != e.thread
  {
    var longer := log + [e];
    assert longer[..|longer| - 1] == log;
    forall since: nat | since <= |log| && Untouched(longer, m, since)
      ensures m != e.message && Untouched(log, m, since)
    {
      assert longer[|log|] == e;
      forall k | since <= k < |log| ensures log[k].message != m { assert longer[k] == log[k]; }
    }
    forall t: nat, since: nat | ThreadUntouched(longer, t, since) ensures ThreadUntouched(log, t, since) {
      forall k | since <= k < |log| ensures log[k].thread != t { assert longer[k] == log[k]; }
    }
    forall t: nat, since: nat | since <= |log| && ThreadUntouched(longer, t, since) ensures t != e.thread {
      assert longer[|log|] == e;
    }
  }

  lemma AppendWellFormed(log: Log, e: Touch)
    requires WellFormed(log) && CanFollow(log, e)
    ensures WellFormed(log + [e])
  {
    var longer := log + [e];
    ThreadOfTouched(log, e.message);
    forall i | 0 <= i < |log| && log[i].message == e.message ensures log[i].thread == e.thread {
      assert Touches(log, e.message);
    }
    forall k | 0 <= k < |longer| ensures CanFollow(longer[..k], longer[k]) {
      assert longer[..k] == log[..k];
      if k == |log| { assert log[..k] == log; }
    }
  }

  lemma AppendQuiet(level: Level, log: Log, e: Touch, m: nat, since: nat)
    requires WellFormed(log + [e]) && since <= |log| && Quiet(level, log + [e], m, since)
    ensures m != e.message && Quiet(level, log, m, since)
  {
    QuietUntouched(level, log + [e], m, since);
    AppendView(log, e, m);
  }

  lemma AppendKeeps(level: Level, scope: set<nat>, log: Log, e: Touch, local: Store, since: nat)
    requires WellFormed(log + [e]) && since <= |log|
    ensures NoGap(level, scope, log, local, since) ==> NoGap(level, scope, log + [e], local, since)
    ensures NoStale(log, local, since) ==> NoStale(log + [e], local, since)
  {
    forall m: nat | Quiet(level, log + [e], m, since)
      ensures m != e.message && Quiet(level, log, m, since)
      ensures View(log + [e], m) == View(log, m) && ThreadOf(log + [e], m) == ThreadOf(log, m)
    {
      AppendQuiet(level, log, e, m, since);
      AppendView(log, e, m);
    }
    forall m: nat | Untouched(log + [e], m, since)
      ensures Untouched(log, m, since) && Exists(log + [e], m) == Exists(log, m)
    {
      AppendView(log, e, m);
    }
  }

  // ---- Facts about one write ----

  /** A snapshot taken at some earlier point of the history. */
  ghost predicate TakenAt(log: Log, snap: Snap) {
    snap.at <= |log| && snap.rows == Snapshot(log[..snap.at], snap.thread)
    && (snap.gone ==> snap.rows == map[])
  }

  /** Writing a snapshot makes its thread's untouched messages right and spoils no other. */
  lemma {:induction false} ApplyMessage(log: Log, local: Store, snap: Snap, m: nat)
    requires WellFormed(log) && TakenAt(log, snap) && Untouched(log, m, snap.at)
    ensures Stored(log, local, m) ==> Stored(log, Apply(local, snap), m)
    ensures Exists(log, m) && ThreadOf(log, m) == snap.thread ==> Stored(log, Apply(local, snap), m)
    ensures !Exists(log, m) && m in Apply(local, snap) ==> m in local
  {
    UntouchedView(log, m, snap.at);
    SnapshotIs(log[..snap.at], snap.thread, m);
  }

  lemma ApplyKeeps(level: Level, scope: set<nat>, log: Log, local: Store, snap: Snap, since: nat)
    requires WellFormed(log) && TakenAt(log, snap) && since <= snap.at
    ensures NoGap(level, scope, log, local, since) ==> NoGap(level, scope, log, Apply(local, snap), since)
    ensures NoStale(log, local, since) ==> NoStale(log, Apply(local, snap), since)
  {
    forall m: nat | Quiet(level, log, m, since) && Stored(log, local, m) ensures Stored(log, Apply(local, snap), m) {
      QuietUntouched(level, log, m, since);
      ApplyMessage(log, local, snap, m);
    }
    forall m: nat | Untouched(log, m, since) && !Exists(log, m) && m in Apply(local, snap) ensures m in local {
      ApplyMessage(log, local, snap, m);
    }
  }

  /** The last event of a message that is gone right after it is its deletion. */
  lemma GoneByDeletion(log: Log, m: nat)
    requires WellFormed(log) && log != [] && log[|log| - 1].message == m && !Exists(log, m)
    ensures log[|log| - 1].Deleted?
  {
    assert CanFollow(log[..|log| - 1], log[|log| - 1]);
  }

  lemma OwnEventDeletes(log: Log, m: nat, from: nat, upto: nat)
    requires WellFormed(log) && from < upto <= |log| && log[upto - 1].message == m
    requires Untouched(log, m, upto) && !Exists(log, m)
    ensures LastAddOrDelete(log[from..upto], m).Some? && LastAddOrDelete(log[from..upto], m).value.Deleted?
  {
    UntouchedView(log, m, upto);
    WellFormedPrefix(log, upto);
    GoneByDeletion(log[..upto], m);
    assert log[from..upto][upto - from - 1] == log[upto - 1];
  }

  lemma UntouchedEarlier(log: Log, m: nat, upto: nat)
    requires 0 < upto <= |log| && log[upto - 1].message != m && Untouched(log, m, upto)
    ensures Untouched(log, m, upto - 1)
  {}

  lemma StillToTouch(log: Log, m: nat, from: nat, upto: nat)
    requires from <= upto && Untouched(log, m, upto) && !Untouched(log, m, from)
    ensures from < upto
  {}

  lemma OtherEventSkips(log: Log, m: nat, from: nat, upto: nat)
    requires from < upto <= |log| && log[upto - 1].message != m
    ensures LastAddOrDelete(log[from..upto], m) == LastAddOrDelete(log[from..upto - 1], m)
  {
    assert log[from..upto][..upto - from - 1] == log[from..upto - 1];
  }

  /** A message gone at the end, untouched since `upto` but touched in `[from, upto)`, was deleted
      by its last event there. */
  lemma {:induction false} LastEventDeletes(log: Log, m: nat, from: nat, upto: nat)
    requires WellFormed(log) && from <= upto <= |log|
    requires Untouched(log, m, upto) && !Untouched(log, m, from) && !Exists(log, m)
    ensures LastAddOrDelete(log[from..upto], m).Some? && LastAddOrDelete(log[from..upto], m).value.Deleted?
    decreases upto
  {
    StillToTouch(log, m, from, upto);
    if log[upto - 1].message == m {
      OwnEventDeletes(log, m, from, upto);
    } else {
      UntouchedEarlier(log, m, upto);
      LastEventDeletes(log, m, from, upto - 1);
      OtherEventSkips(log, m, from, upto);
    }
  }

  lemma WindowFixed(log: Log, from: nat, upto: nat)
    requires WellFormed(log) && from <= upto <= |log|
    ensures FixedThreads(log[from..upto])
  {}

  /** The window's fold finds every thread touched in it, and every message deleted in it. */
  lemma WindowFold(log: Log, from: nat, upto: nat)
    requires WellFormed(log) && from <= upto <= |log|
    ensures forall t: nat | t !in Threads(Fold(log[from..upto])) && ThreadUntouched(log, t, upto) :: ThreadUntouched(log, t, from)
    ensures forall m: nat | Untouched(log, m, upto) && !Untouched(log, m, from) && !Exists(log, m) ::
      m in DeletedIds(Fold(log[from..upto]))
    ensures forall m: nat | m in DeletedIds(Fold(log[from..upto])) && Untouched(log, m, upto) ::
      !Exists(log, m) && !Untouched(log, m, from)
  {
    var window := log[from..upto];
    WindowFixed(log, from, upto);
    FoldRefinesReplay(window);
    forall t: nat | t !in Threads(Fold(window)) && ThreadUntouched(log, t, upto) ensures ThreadUntouched(log, t, from) {
      forall k | from <= k < |log| ensures log[k].thread != t {
        if k < upto { assert window[k - from] == log[k]; }
      }
    }
    forall m: nat | Untouched(log, m, upto) && !Untouched(log, m, from) && !Exists(log, m)
      ensures m in DeletedIds(Fold(window))
    {
      LastEventDeletes(log, m, from, upto);
    }
    forall m: nat | m in DeletedIds(Fold(window)) && Untouched(log, m, upto)
      ensures !Exists(log, m) && !Untouched(log, m, from)
    {
      LastInWindow(log, m, from, upto);
      UntouchedView(log, m, upto);
    }
  }

  /** An add or delete inside a window that reaches up to `upto` is the last one before `upto`. */
  lemma {:induction false} LastInWindow(log: Log, m: nat, from: nat, upto: nat)
    requires from <= upto <= |log| && LastAddOrDelete(log[from..upto], m).Some?
    ensures LastAddOrDelete(log[..upto], m) == LastAddOrDelete(log[from..upto], m)
    ensures !Untouched(log, m, from)
    decreases upto
  {
    var e := log[upto - 1];
    assert log[from..upto][..upto - from - 1] == log[from..upto - 1];
    assert log[..upto][..upto - 1] == log[..upto - 1];
    if e.message != m || e.Labelled? {
      LastInWindow(log, m, from, upto - 1);
    }
  }
}
