/** From history records to a change list, and from a change list to work
    (`apps/api/src/providers/gmail/client.ts`, `apps/api/src/services/deltaSync.ts`).

    Message, thread and label ids are numbers. A JavaScript `Map` is a sequence of entries in
    insertion order, and a `Set` a sequence without duplicates in insertion order.
 */
module HistoryFold {
  import opened Common

  /** A message as a history record names it; either id can be missing. */
  datatype MessageRef = MessageRef(id: Option<nat>, threadId: Option<nat>)

  datatype LabelRef = LabelRef(message: MessageRef, labelIds: seq<nat>)

  datatype Record = Record(
    messagesAdded: seq<MessageRef>, messagesDeleted: seq<MessageRef>,
    labelsAdded: seq<LabelRef>, labelsRemoved: seq<LabelRef>)

  datatype Page = Page(history: seq<Record>, historyId: Option<nat>)

  /** One provider event on one message. */
  datatype Touch =
    | Added(message: nat, thread: nat)
    | Deleted(message: nat, thread: nat)
    | Labelled(message: nat, thread: nat, added: seq<nat>, removed: seq<nat>)

  datatype RawChange =
    | UpsertedChange(message: nat, thread: nat)
    | DeletedChange(message: nat, thread: nat)
    | LabelsChange(message: nat, thread: nat, labelsAdded: seq<nat>, labelsRemoved: seq<nat>)

  // ---- The events of a history, in order ----

  /** `idsOf` decides which entries count at all. */
  predicate HasIds(m: MessageRef) {
    m.id.Some? && m.threadId.Some?
  }

  function Adds(ms: seq<MessageRef>): seq<Touch> {
    if ms == [] then []
    else
      var m := ms[|ms| - 1];
      Adds(ms[..|ms| - 1]) + if HasIds(m) then [Added(m.id.value, m.threadId.value)] else []
  }

  function Deletes(ms: seq<MessageRef>): seq<Touch> {
    if ms == [] then []
    else
      var m := ms[|ms| - 1];
      Deletes(ms[..|ms| - 1]) + if HasIds(m) then [Deleted(m.id.value, m.threadId.value)] else []
  }

  function LabelTouch(l: LabelRef, removing: bool): Touch
    requires HasIds(l.message)
  {
    Labelled(l.message.id.value, l.message.threadId.value,
             if removing then [] else l.labelIds, if removing then l.labelIds else [])
  }

  function Labels(ls: seq<LabelRef>, removing: bool): seq<Touch> {
    if ls == [] then []
    else
      var l := ls[|ls| - 1];
      Labels(ls[..|ls| - 1], removing) + if HasIds(l.message) then [LabelTouch(l, removing)] else []
  }

  function RecordTouches(r: Record): seq<Touch> {
    Adds(r.messagesAdded) + Deletes(r.messagesDeleted)
    + Labels(r.labelsAdded, false) + Labels(r.labelsRemoved, true)
  }

  function RecordsTouches(rs: seq<Record>): seq<Touch> {
    if rs == [] then [] else RecordsTouches(rs[..|rs| - 1]) + RecordTouches(rs[|rs| - 1])
  }

  function PagesTouches(ps: seq<Page>): seq<Touch> {
    if ps == [] then [] else PagesTouches(ps[..|ps| - 1]) + RecordsTouches(ps[|ps| - 1].history)
  }

  // ---- The change map ----

  function IndexOf(changes: seq<RawChange>, message: nat): (i: nat)
    ensures i <= |changes|
    ensures i < |changes| ==> changes[i].message == message
    ensures forall k | 0 <= k < i :: changes[k].message != message
  {
    if changes == [] || changes[0].message == message then 0 else 1 + IndexOf(changes[1..], message)
  }

  /** `Map.set`: replace in place, or append. */
  function Put(changes: seq<RawChange>, change: RawChange): seq<RawChange> {
    var i := IndexOf(changes, change.message);
    if i < |changes| then changes[i := change] else changes + [change]
  }

  /** `[...new Set([...a, ...b])]` for a list `a` that already is one. */
  function Union(a: seq<nat>, b: seq<nat>): seq<nat>
    decreases |b|
  {
    if b == [] then a else Union(if b[0] in a then a else a + [b[0]], b[1..])
  }

  /** One event folded into the map: the last add or delete wins, and a label event never
      replaces either. */
  function FoldTouch(changes: seq<RawChange>, e: Touch): seq<RawChange> {
    match e
    case Added(m, t) => Put(changes, UpsertedChange(m, t))
    case Deleted(m, t) => Put(changes, DeletedChange(m, t))
    case Labelled(m, t, added, removed) =>
      var i := IndexOf(changes, m);
      if i == |changes| then
        changes + [LabelsChange(m, t, Union([], added), Union([], removed))]
      else if !changes[i].LabelsChange? then changes
      else changes[i := LabelsChange(m, t, Union(changes[i].labelsAdded, added), Union(changes[i].labelsRemoved, removed))]
  }

  function FoldFrom(changes: seq<RawChange>, es: seq<Touch>): seq<RawChange> {
    if es == [] then changes else FoldTouch(FoldFrom(changes, es[..|es| - 1]), es[|es| - 1])
  }

  function Fold(es: seq<Touch>): seq<RawChange> {
    FoldFrom([], es)
  }

  lemma {:induction false} FoldConcat(changes: seq<RawChange>, a: seq<Touch>, b: seq<Touch>)
    ensures FoldFrom(changes, a + b) == FoldFrom(FoldFrom(changes, a), b)
  {
    if b == [] {
      assert a + b == a;
    } else {
      assert (a + b)[..|a + b| - 1] == a + b[..|b| - 1];
      FoldConcat(changes, a, b[..|b| - 1]);
    }
  }

  // ---- What a delta does with the changes ----

  /** `Set.add` over the changes' threads. */
  function Threads(changes: seq<RawChange>): (threads: seq<nat>)
    ensures forall t :: t in threads <==> exists k :: 0 <= k < |changes| && changes[k].thread == t
    ensures forall i, j | 0 <= i < j < |threads| :: threads[i] != threads[j]
  {
    if changes == [] then []
    else
      var before := Threads(changes[..|changes| - 1]);
      var t := changes[|changes| - 1].thread;
      assert forall k | 0 <= k < |changes| - 1 :: changes[..|changes| - 1][k] == changes[k];
      if t in before then before else before + [t]
  }

  function DeletedIds(changes: seq<RawChange>): seq<nat> {
    if changes == [] then []
    else
      var c := changes[|changes| - 1];
      DeletedIds(changes[..|changes| - 1]) + if c.DeletedChange? then [c.message] else []
  }

  // ---- Replay: what the events say, message by message ----

  /** The last add or delete event on a message, if there is one. */
  function LastAddOrDelete(es: seq<Touch>, m: nat): Option<Touch> {
    if es == [] then None
    else
      var e := es[|es| - 1];
      if e.message == m && !e.Labelled? then Some(e) else LastAddOrDelete(es[..|es| - 1], m)
  }

  predicate Touches(es: seq<Touch>, m: nat) {
    exists k :: 0 <= k < |es| && es[k].message == m
  }

  /** Every message stays in its thread. */
  ghost predicate FixedThreads(es: seq<Touch>) {
    forall i, j | 0 <= i < |es| && 0 <= j < |es| && es[i].message == es[j].message :: es[i].thread == es[j].thread
  }

  ghost predicate DistinctMessages(changes: seq<RawChange>) {
    forall i, j | 0 <= i < j < |changes| :: changes[i].message != changes[j].message
  }

  /** The entry of one message says what the replay of its events says. */
  ghost predicate Entry(es: seq<Touch>, c: RawChange) {
    && (exists k :: 0 <= k < |es| && es[k].message == c.message && es[k].thread == c.thread)
    && (c.DeletedChange? <==> LastAddOrDelete(es, c.message).Some? && LastAddOrDelete(es, c.message).value.Deleted?)
    && (c.LabelsChange? <==> LastAddOrDelete(es, c.message).None?)
  }

  lemma TouchesLast(es: seq<Touch>, m: nat)
    requires es != []
    ensures Touches(es, m) <==> Touches(es[..|es| - 1], m) || es[|es| - 1].message == m
  {
    if Touches(es[..|es| - 1], m) {
      var k :| 0 <= k < |es| - 1 && es[..|es| - 1][k].message == m;
      assert es[k].message == m;
    }
    if Touches(es, m) && es[|es| - 1].message != m {
      var k :| 0 <= k < |es| && es[k].message == m;
      assert es[..|es| - 1][k].message == m;
    }
  }

  /** The fold is the replay: one entry per touched message, deleted exactly when its last
      add or delete is a delete, a label change exactly when it has neither. */
  lemma {:induction false} FoldIsReplay(es: seq<Touch>)
    requires FixedThreads(es)
    ensures DistinctMessages(Fold(es))
    ensures forall c | c in Fold(es) :: Entry(es, c)
    ensures forall m: nat :: Touches(es, m) <==> IndexOf(Fold(es), m) < |Fold(es)|
  {
    if es != [] {
      var n := |es| - 1;
      var before, e := es[..n], es[n];
      FoldIsReplay(before);
      var old_, new_ := Fold(before), Fold(es);
      var at := IndexOf(old_, e.message);
      assert |new_| == if at == |old_| then |old_| + 1 else |old_|;
      forall i | 0 <= i < |new_| ensures Entry(es, new_[i]) {
        FoldEntry(es, before, old_, i);
      }
      forall m: nat ensures Touches(es, m) <==> IndexOf(new_, m) < |new_| {
        TouchesLast(es, m);
        FoldKeys(es, m);
      }
    } else {
      forall m: nat ensures IndexOf(Fold(es), m) == 0 {}
    }
  }

  lemma FoldKeys(es: seq<Touch>, m: nat)
    requires es != []
    ensures var old_, new_ := Fold(es[..|es| - 1]), Fold(es);
      IndexOf(new_, m) < |new_| <==> IndexOf(old_, m) < |old_| || es[|es| - 1].message == m
  {
    var old_, new_ := Fold(es[..|es| - 1]), Fold(es);
    var e := es[|es| - 1];
    assert new_ == FoldTouch(old_, e);
    if IndexOf(old_, m) < |old_| {
      assert new_[IndexOf(old_, m)].message == m;
    }
    if e.message == m {
      assert new_[IndexOf(old_, m)].message == m;
    } else if IndexOf(new_, m) < |new_| {
      assert old_[IndexOf(new_, m)].message == m;
    }
  }

  lemma {:induction false} FoldEntry(es: seq<Touch>, before: seq<Touch>, old_: seq<RawChange>, i: nat)
    requires es != [] && before == es[..|es| - 1] && old_ == Fold(before)
    requires FixedThreads(es) && i < |Fold(es)| && DistinctMessages(old_)
    requires forall c | c in old_ :: Entry(before, c)
    requires forall m: nat :: Touches(before, m) <==> IndexOf(old_, m) < |old_|
    ensures Entry(es, Fold(es)[i])
  {
    var e := es[|es| - 1];
    var new_ := Fold(es);
    var at := IndexOf(old_, e.message);
    assert new_ == FoldTouch(old_, e);
    if i != at {
      var c := new_[i];
      assert c == old_[i] && c.message != e.message;
      assert Entry(before, c);
      var k :| 0 <= k < |before| && before[k].message == c.message && before[k].thread == c.thread;
      assert es[k] == before[k];
    } else {
      assert es[|es| - 1].message == new_[i].message && es[|es| - 1].thread == e.thread;
      if at < |old_| {
        assert Entry(before, old_[at]);
        var k :| 0 <= k < |before| && before[k].message == e.message && before[k].thread == old_[at].thread;
        assert es[k] == before[k];
      } else {
        assert !Touches(before, e.message);
        NoTouchNoLast(before, e.message);
      }
    }
  }

  lemma {:induction false} NoTouchNoLast(es: seq<Touch>, m: nat)
    requires !Touches(es, m)
    ensures LastAddOrDelete(es, m).None?
  {
    if es != [] {
      TouchesLast(es, m);
      NoTouchNoLast(es[..|es| - 1], m);
    }
  }

  predicate MarkedDeleted(changes: seq<RawChange>, m: nat) {
    exists k :: 0 <= k < |changes| && changes[k].DeletedChange? && changes[k].message == m
  }

  lemma {:induction false} DeletedIdsAre(changes: seq<RawChange>, m: nat)
    ensures m in DeletedIds(changes) <==> MarkedDeleted(changes, m)
  {
    if changes != [] {
      var before := changes[..|changes| - 1];
      DeletedIdsAre(before, m);
      if m in DeletedIds(before) {
        var k :| 0 <= k < |before| && before[k].DeletedChange? && before[k].message == m;
        assert changes[k] == before[k];
      }
      if k :| 0 <= k < |changes| && changes[k].DeletedChange? && changes[k].message == m {
        if k < |before| { assert before[k] == changes[k]; }
      }
    }
  }

  /** For any history: the threads to refetch are exactly the touched ones, and the messages
      to delete exactly those whose last add or delete is a delete. */
  lemma {:induction false} FoldRefinesReplay(es: seq<Touch>)
    requires FixedThreads(es)
    ensures forall t: nat :: t in Threads(Fold(es)) <==> exists k :: 0 <= k < |es| && es[k].thread == t
    ensures forall m: nat :: m in DeletedIds(Fold(es)) <==>
      LastAddOrDelete(es, m).Some? && LastAddOrDelete(es, m).value.Deleted?
  {
    FoldIsReplay(es);
    var changes := Fold(es);
    forall t: nat ensures t in Threads(changes) <==> exists k :: 0 <= k < |es| && es[k].thread == t {
      if t in Threads(changes) {
        var i :| 0 <= i < |changes| && changes[i].thread == t;
        assert Entry(es, changes[i]);
      }
      if k :| 0 <= k < |es| && es[k].thread == t {
        var m := es[k].message;
        assert Touches(es, m);
        var i := IndexOf(changes, m);
        assert Entry(es, changes[i]);
        assert changes[i].thread == t;
      }
    }
    forall m: nat ensures m in DeletedIds(changes) <==>
      LastAddOrDelete(es, m).Some? && LastAddOrDelete(es, m).value.Deleted?
    {
      DeletedIdsAre(changes, m);
      if LastAddOrDelete(es, m).Some? && LastAddOrDelete(es, m).value.Deleted? {
        if !Touches(es, m) { NoTouchNoLast(es, m); }
        assert Entry(es, changes[IndexOf(changes, m)]);
      }
      if k :| 0 <= k < |changes| && changes[k].DeletedChange? && changes[k].message == m {
        assert Entry(es, changes[k]);
      }
    }
  }

  predicate Carries(e: Touch, m: nat, tag: nat, removing: bool) {
    e.message == m && e.Labelled? && tag in if removing then e.removed else e.added
  }

  /** Label `tag` was put on (or taken off) message `m` by some event. */
  predicate LabelEvent(es: seq<Touch>, m: nat, tag: nat, removing: bool) {
    exists k :: 0 <= k < |es| && Carries(es[k], m, tag, removing)
  }

  lemma {:induction false} UnionIs(a: seq<nat>, b: seq<nat>)
    ensures forall x: nat :: x in Union(a, b) <==> x in a || x in b
    decreases |b|
  {
    if b != [] {
      UnionIs(if b[0] in a then a else a + [b[0]], b[1..]);
    }
  }

  lemma LabelEventLast(es: seq<Touch>, m: nat, tag: nat, removing: bool)
    requires es != []
    ensures LabelEvent(es, m, tag, removing) <==>
      LabelEvent(es[..|es| - 1], m, tag, removing) || Carries(es[|es| - 1], m, tag, removing)
  {
    var before := es[..|es| - 1];
    if LabelEvent(before, m, tag, removing) {
      var k :| 0 <= k < |before| && Carries(before[k], m, tag, removing);
      assert es[k] == before[k];
    }
    if LabelEvent(es, m, tag, removing) {
      var k :| 0 <= k < |es| && Carries(es[k], m, tag, removing);
      if k < |before| { assert before[k] == es[k]; }
    }
  }

  /** A message with label events only carries every label any of them added or removed. */
  lemma {:induction false} LabelsCollected(es: seq<Touch>, m: nat)
    requires FixedThreads(es) && Touches(es, m) && LastAddOrDelete(es, m).None?
    ensures IndexOf(Fold(es), m) < |Fold(es)| && Fold(es)[IndexOf(Fold(es), m)].LabelsChange?
    ensures var c := Fold(es)[IndexOf(Fold(es), m)]; forall tag: nat ::
      (tag in c.labelsAdded <==> LabelEvent(es, m, tag, false))
      && (tag in c.labelsRemoved <==> LabelEvent(es, m, tag, true))
  {
    FoldIsReplay(es);
    var before, e := es[..|es| - 1], es[|es| - 1];
    var old_, new_ := Fold(before), Fold(es);
    var c := new_[IndexOf(new_, m)];
    assert Entry(es, c);
    FoldIsReplay(before);
    TouchesLast(es, m);
    if Touches(before, m) {
      LabelsCollected(before, m);
    } else {
      forall tag: nat, removing: bool ensures !LabelEvent(before, m, tag, removing) {}
    }
    forall tag: nat
      ensures tag in c.labelsAdded <==> LabelEvent(es, m, tag, false)
      ensures tag in c.labelsRemoved <==> LabelEvent(es, m, tag, true)
    {
      LabelEventLast(es, m, tag, false);
      LabelEventLast(es, m, tag, true);
      if e.message == m {
        var i := IndexOf(old_, m);
        var was := if i < |old_| then old_[i] else LabelsChange(m, e.thread, [], []);
        UnionIs(was.labelsAdded, e.added);
        UnionIs(was.labelsRemoved, e.removed);
        assert new_[i].message == m && IndexOf(new_, m) == i;
      } else {
        assert c == old_[IndexOf(old_, m)] by {
          var i := IndexOf(new_, m);
          assert new_[IndexOf(old_, m)] == old_[IndexOf(old_, m)];
          assert i == IndexOf(old_, m);
        }
      }
    }
  }

  // ---- A longer history keeps the order of the threads ----

  lemma FoldKeepsThreads(changes: seq<RawChange>, e: Touch)
    requires forall k | 0 <= k < |changes| && changes[k].message == e.message :: changes[k].thread == e.thread
    ensures |changes| <= |FoldTouch(changes, e)|
    ensures forall k | 0 <= k < |changes| :: FoldTouch(changes, e)[k].thread == changes[k].thread
  {}

  lemma {:induction false} ThreadsPrefix(a: seq<RawChange>, b: seq<RawChange>)
    requires |a| <= |b| && forall k | 0 <= k < |a| :: b[k].thread == a[k].thread
    ensures Threads(a) <= Threads(b)
    decreases |b|
  {
    if |a| == |b| {
      if a != [] { ThreadsPrefix(a[..|a| - 1], b[..|b| - 1]); ThreadsPrefixBack(a, b); }
    } else {
      ThreadsPrefix(a, b[..|b| - 1]);
    }
  }

  lemma {:induction false} ThreadsPrefixBack(a: seq<RawChange>, b: seq<RawChange>)
    requires |a| == |b| && forall k | 0 <= k < |a| :: b[k].thread == a[k].thread
    ensures Threads(a) == Threads(b)
  {
    if a != [] {
      ThreadsPrefixBack(a[..|a| - 1], b[..|b| - 1]);
    }
  }

  lemma FixedPart(es: seq<Touch>, k: nat)
    requires FixedThreads(es) && k <= |es|
    ensures FixedThreads(es[..k])
  {}

  /** One event more only appends to the threads. */
  lemma OneMoreKeepsThreads(es: seq<Touch>, e: Touch)
    requires FixedThreads(es + [e])
    ensures Threads(Fold(es)) <= Threads(Fold(es + [e]))
  {
    var before := Fold(es);
    assert (es + [e])[..|es|] == es;
    FixedPart(es + [e], |es|);
    FoldIsReplay(es);
    forall k | 0 <= k < |before| && before[k].message == e.message ensures before[k].thread == e.thread {
      assert Entry(es, before[k]);
      var i :| 0 <= i < |es| && es[i].message == e.message && es[i].thread == before[k].thread;
      assert (es + [e])[i] == es[i] && (es + [e])[|es|] == e;
    }
    FoldKeepsThreads(before, e);
    ThreadsPrefix(before, FoldTouch(before, e));
  }

  /** Reading further into the history only appends threads: the ones already found keep
      their places. */
  lemma {:induction false} ThreadsStable(es: seq<Touch>, more: seq<Touch>)
    requires FixedThreads(es + more)
    ensures Threads(Fold(es)) <= Threads(Fold(es + more))
    decreases |more|
  {
    if more == [] {
      assert es + more == es;
    } else {
      var shorter, e := more[..|more| - 1], more[|more| - 1];
      assert (es + more)[..|es + shorter|] == es + shorter;
      FixedPart(es + more, |es + shorter|);
      ThreadsStable(es, shorter);
      assert es + more == (es + shorter) + [e];
      OneMoreKeepsThreads(es + shorter, e);
    }
  }

  lemma FoldOneMore(start: seq<RawChange>, es: seq<Touch>, e: Touch)
    ensures FoldFrom(start, es + [e]) == FoldTouch(FoldFrom(start, es), e)
  {
    assert (es + [e])[..|es|] == es;
  }
}
