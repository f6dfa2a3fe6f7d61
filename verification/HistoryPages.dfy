/** What `history.list` returns, page by page and list by list, and what `syncDelta` and
    `foldChanges` make of it (`apps/api/src/providers/gmail/client.ts`,
    `apps/api/src/services/deltaSync.ts`).

    The first half says which events the lists of a record hold and in what order; the second
    half has the loops.
 */
module HistoryPages {
  import opened Common
  import opened HistoryFold

  // ---- What a record names ----

  /** Some entry of the list names the message, with both ids. */
  predicate AnyFor(ms: seq<MessageRef>, m: nat) {
    exists k :: 0 <= k < |ms| && ms[k].id == Some(m) && ms[k].threadId.Some?
  }

  predicate LabelsFor(ls: seq<LabelRef>, m: nat, t: nat) {
    exists k :: 0 <= k < |ls| && ls[k].message == MessageRef(Some(m), Some(t))
  }

  /** Some entry of the list changes label `tag` of the message. */
  predicate TagFor(ls: seq<LabelRef>, m: nat, tag: nat) {
    exists k :: 0 <= k < |ls| && ls[k].message.id == Some(m) && ls[k].message.threadId.Some? && tag in ls[k].labelIds
  }

  /** An entry of the list of the event's kind is this event. */
  predicate Names(r: Record, e: Touch) {
    var ref := MessageRef(Some(e.message), Some(e.thread));
    match e
    case Added(_, _) => ref in r.messagesAdded
    case Deleted(_, _) => ref in r.messagesDeleted
    case Labelled(_, _, added, removed) =>
      (removed == [] && LabelRef(ref, added) in r.labelsAdded)
      || (added == [] && LabelRef(ref, removed) in r.labelsRemoved)
  }

  /** Any entry of the record is about the message, in the thread. */
  predicate Mentions(r: Record, m: nat, t: nat) {
    var ref := MessageRef(Some(m), Some(t));
    ref in r.messagesAdded || ref in r.messagesDeleted || LabelsFor(r.labelsAdded, m, t) || LabelsFor(r.labelsRemoved, m, t)
  }

  lemma {:induction false} AddsAre(ms: seq<MessageRef>, e: Touch)
    ensures e in Adds(ms) <==> e.Added? && MessageRef(Some(e.message), Some(e.thread)) in ms
  {
    if ms != [] {
      AddsAre(ms[..|ms| - 1], e);
      assert ms == ms[..|ms| - 1] + [ms[|ms| - 1]];
    }
  }

  lemma {:induction false} DeletesAre(ms: seq<MessageRef>, e: Touch)
    ensures e in Deletes(ms) <==> e.Deleted? && MessageRef(Some(e.message), Some(e.thread)) in ms
  {
    if ms != [] {
      DeletesAre(ms[..|ms| - 1], e);
      assert ms == ms[..|ms| - 1] + [ms[|ms| - 1]];
    }
  }

  lemma {:induction false} LabelsAre(ls: seq<LabelRef>, removing: bool, e: Touch)
    ensures e in Labels(ls, removing) <==>
      e.Labelled? && (if removing then e.added else e.removed) == []
      && LabelRef(MessageRef(Some(e.message), Some(e.thread)), if removing then e.removed else e.added) in ls
  {
    if ls != [] {
      LabelsAre(ls[..|ls| - 1], removing, e);
      assert ls == ls[..|ls| - 1] + [ls[|ls| - 1]];
    }
  }

  /** A record holds exactly the events its four lists name. */
  lemma RecordEvents(r: Record, e: Touch)
    ensures e in RecordTouches(r) <==> Names(r, e)
  {
    AddsAre(r.messagesAdded, e);
    DeletesAre(r.messagesDeleted, e);
    LabelsAre(r.labelsAdded, false, e);
    LabelsAre(r.labelsRemoved, true, e);
  }

  function Phase(e: Touch): nat {
    if e.Added? then 0 else if e.Deleted? then 1 else 2
  }

  /** Adds come before deletes, and those before label changes. */
  lemma {:induction false} RecordOrder(r: Record, i: nat, j: nat)
    requires i < j < |RecordTouches(r)|
    ensures Phase(RecordTouches(r)[i]) <= Phase(RecordTouches(r)[j])
  {
    var adds, deletes, labels := Adds(r.messagesAdded), Deletes(r.messagesDeleted),
      Labels(r.labelsAdded, false) + Labels(r.labelsRemoved, true);
    var all := RecordTouches(r);
    assert all == adds + deletes + labels;
    forall k | 0 <= k < |all|
      ensures Phase(all[k]) == if k < |adds| then 0 else if k < |adds| + |deletes| then 1 else 2
    {
      if k < |adds| {
        assert all[k] == adds[k];
        AddsAre(r.messagesAdded, all[k]);
      } else if k < |adds| + |deletes| {
        assert all[k] == deletes[k - |adds|];
        DeletesAre(r.messagesDeleted, all[k]);
      } else {
        assert all[k] == labels[k - |adds| - |deletes|];
        LabelsAre(r.labelsAdded, false, all[k]);
        LabelsAre(r.labelsRemoved, true, all[k]);
      }
    }
  }

  // ---- The last add or delete of a message ----

  lemma {:induction false} LastConcat(a: seq<Touch>, b: seq<Touch>, m: nat)
    ensures LastAddOrDelete(a + b, m) ==
      if LastAddOrDelete(b, m).Some? then LastAddOrDelete(b, m) else LastAddOrDelete(a, m)
    decreases |b|
  {
    if b == [] {
      assert a + b == a;
    } else {
      assert (a + b)[..|a + b| - 1] == a + b[..|b| - 1];
      LastConcat(a, b[..|b| - 1], m);
    }
  }

  lemma LastSnoc(es: seq<Touch>, e: Touch, m: nat)
    ensures LastAddOrDelete(es + [e], m) == if e.message == m && !e.Labelled? then Some(e) else LastAddOrDelete(es, m)
  {
    assert (es + [e])[..|es|] == es;
  }

  lemma {:induction false} AddsLast(ms: seq<MessageRef>, m: nat)
    ensures LastAddOrDelete(Adds(ms), m).Some? <==> AnyFor(ms, m)
    ensures LastAddOrDelete(Adds(ms), m).Some? ==> LastAddOrDelete(Adds(ms), m).value.Added?
  {
    if ms != [] {
      var front, last := ms[..|ms| - 1], ms[|ms| - 1];
      AddsLast(front, m);
      AnyForLast(ms, m);
      if HasIds(last) {
        LastSnoc(Adds(front), Added(last.id.value, last.threadId.value), m);
      } else {
        assert Adds(front) + [] == Adds(front);
      }
    }
  }

  lemma {:induction false} DeletesLast(ms: seq<MessageRef>, m: nat)
    ensures LastAddOrDelete(Deletes(ms), m).Some? <==> AnyFor(ms, m)
    ensures LastAddOrDelete(Deletes(ms), m).Some? ==> LastAddOrDelete(Deletes(ms), m).value.Deleted?
  {
    if ms != [] {
      var front, last := ms[..|ms| - 1], ms[|ms| - 1];
      DeletesLast(front, m);
      AnyForLast(ms, m);
      if HasIds(last) {
        LastSnoc(Deletes(front), Deleted(last.id.value, last.threadId.value), m);
      } else {
        assert Deletes(front) + [] == Deletes(front);
      }
    }
  }

  lemma AnyForLast(ms: seq<MessageRef>, m: nat)
    requires ms != []
    ensures AnyFor(ms, m) <==> AnyFor(ms[..|ms| - 1], m) || (ms[|ms| - 1].id == Some(m) && ms[|ms| - 1].threadId.Some?)
  {
    var front := ms[..|ms| - 1];
    assert forall k | 0 <= k < |front| :: front[k] == ms[k];
    if k :| 0 <= k < |ms| && ms[k].id == Some(m) && ms[k].threadId.Some? {
      if k < |front| { assert front[k] == ms[k]; }
    }
  }

  lemma {:induction false} LabelsLast(ls: seq<LabelRef>, removing: bool, m: nat)
    ensures LastAddOrDelete(Labels(ls, removing), m).None?
  {
    if ls != [] {
      var front, last := ls[..|ls| - 1], ls[|ls| - 1];
      LabelsLast(front, removing, m);
      if HasIds(last.message) {
        LastSnoc(Labels(front, removing), LabelTouch(last, removing), m);
      } else {
        assert Labels(front, removing) + [] == Labels(front, removing);
      }
    }
  }

  /** A record's deletion of a message outlives its addition; labels are neither. */
  lemma RecordLast(r: Record, m: nat)
    ensures var last := LastAddOrDelete(RecordTouches(r), m);
      && (last.Some? <==> AnyFor(r.messagesAdded, m) || AnyFor(r.messagesDeleted, m))
      && (last.Some? ==> (last.value.Deleted? <==> AnyFor(r.messagesDeleted, m)) && !last.value.Labelled?)
  {
    var adds, deletes, on, off := Adds(r.messagesAdded), Deletes(r.messagesDeleted),
      Labels(r.labelsAdded, false), Labels(r.labelsRemoved, true);
    AddsLast(r.messagesAdded, m);
    DeletesLast(r.messagesDeleted, m);
    LabelsLast(r.labelsAdded, false, m);
    LabelsLast(r.labelsRemoved, true, m);
    LastConcat(adds, deletes, m);
    LastConcat(adds + deletes, on, m);
    LastConcat(adds + deletes + on, off, m);
  }

  // ---- Records and pages in order ----

  /** Record `j` of page `i`. */
  predicate At(pages: seq<Page>, i: nat, j: nat) {
    i < |pages| && j < |pages[i].history|
  }

  predicate Later(i: nat, j: nat, i2: nat, j2: nat) {
    i < i2 || (i == i2 && j < j2)
  }

  /** An entry of the pages is about the message, in the thread. */
  ghost predicate Mentioned(pages: seq<Page>, m: nat, t: nat) {
    exists i: nat, j: nat :: At(pages, i, j) && Mentions(pages[i].history[j], m, t)
  }

  /** No record after record `j` of page `i` adds the message. */
  ghost predicate NotAddedAfter(pages: seq<Page>, i: nat, j: nat, m: nat) {
    forall i2: nat, j2: nat | At(pages, i2, j2) && Later(i, j, i2, j2) :: !AnyFor(pages[i2].history[j2].messagesAdded, m)
  }

  /** Some record deletes the message and no later one adds it: in its last add-or-delete
      entry the message is deleted. */
  ghost predicate DeletedLast(pages: seq<Page>, m: nat) {
    exists i: nat, j: nat ::
      At(pages, i, j) && AnyFor(pages[i].history[j].messagesDeleted, m) && NotAddedAfter(pages, i, j, m)
  }

  ghost predicate NeverAddedOrDeleted(pages: seq<Page>, m: nat) {
    forall i: nat, j: nat | At(pages, i, j) ::
      !AnyFor(pages[i].history[j].messagesAdded, m) && !AnyFor(pages[i].history[j].messagesDeleted, m)
  }

  /** Some record puts label `tag` on the message, or takes it off. */
  ghost predicate Tagged(pages: seq<Page>, m: nat, tag: nat, removing: bool) {
    exists i: nat, j: nat :: At(pages, i, j)
      && TagFor(if removing then pages[i].history[j].labelsRemoved else pages[i].history[j].labelsAdded, m, tag)
  }

  /** Every message is in one thread, whichever entry names it. */
  ghost predicate OneThread(pages: seq<Page>) {
    forall m: nat, t: nat, u: nat | Mentioned(pages, m, t) && Mentioned(pages, m, u) :: t == u
  }

  ghost predicate NamedIn(rs: seq<Record>, e: Touch) {
    exists j: nat :: j < |rs| && Names(rs[j], e)
  }

  lemma NamedInLast(rs: seq<Record>, e: Touch)
    requires rs != []
    ensures NamedIn(rs, e) <==> NamedIn(rs[..|rs| - 1], e) || Names(rs[|rs| - 1], e)
  {
    var front := rs[..|rs| - 1];
    if j: nat :| j < |front| && Names(front[j], e) { assert Names(rs[j], e); }
    if j: nat :| j < |rs| && Names(rs[j], e) {
      if j < |front| { assert Names(front[j], e); }
    }
  }

  lemma {:induction false} RecordsHold(rs: seq<Record>, e: Touch)
    ensures e in RecordsTouches(rs) <==> NamedIn(rs, e)
  {
    if rs != [] {
      RecordsHold(rs[..|rs| - 1], e);
      RecordEvents(rs[|rs| - 1], e);
      NamedInLast(rs, e);
    }
  }

  ghost predicate NamedOn(pages: seq<Page>, e: Touch) {
    exists i: nat, j: nat :: At(pages, i, j) && Names(pages[i].history[j], e)
  }

  lemma NamedOnLast(pages: seq<Page>, e: Touch)
    requires pages != []
    ensures NamedOn(pages, e) <==> NamedOn(pages[..|pages| - 1], e) || NamedIn(pages[|pages| - 1].history, e)
  {
    var n := |pages| - 1;
    var front, rs := pages[..n], pages[n].history;
    if NamedOn(front, e) {
      var i: nat, j: nat :| At(front, i, j) && Names(front[i].history[j], e);
      assert At(pages, i, j) && Names(pages[i].history[j], e);
    }
    if NamedIn(rs, e) {
      var j: nat :| j < |rs| && Names(rs[j], e);
      assert At(pages, n, j);
    }
    if NamedOn(pages, e) {
      var i: nat, j: nat :| At(pages, i, j) && Names(pages[i].history[j], e);
      if i < n { assert At(front, i, j) && Names(front[i].history[j], e); }
    }
  }

  /** The pages hold exactly the events their records name. */
  lemma {:induction false} PagesHold(pages: seq<Page>, e: Touch)
    ensures e in PagesTouches(pages) <==> exists i: nat, j: nat :: At(pages, i, j) && Names(pages[i].history[j], e)
  {
    assert NamedOn(pages, e) <==> exists i: nat, j: nat :: At(pages, i, j) && Names(pages[i].history[j], e);
    if pages != [] {
      PagesHold(pages[..|pages| - 1], e);
      RecordsHold(pages[|pages| - 1].history, e);
      NamedOnLast(pages, e);
    }
  }

  /** The records of one page, read as a page list of their own. */
  lemma {:induction false} RecordsLast(rs: seq<Record>, m: nat)
    ensures var last := LastAddOrDelete(RecordsTouches(rs), m);
      && (last.None? <==> forall j: nat | j < |rs| :: !AnyFor(rs[j].messagesAdded, m) && !AnyFor(rs[j].messagesDeleted, m))
      && (last.Some? && last.value.Deleted? <==> DeletedIn(rs, m))
  {
    if rs != [] {
      var n := |rs| - 1;
      var front := rs[..n];
      RecordsLast(front, m);
      RecordLast(rs[n], m);
      LastConcat(RecordsTouches(front), RecordTouches(rs[n]), m);
      assert forall j: nat | j < n :: front[j] == rs[j];
      DeletedInLast(rs, m);
    }
  }

  ghost predicate DeletedIn(rs: seq<Record>, m: nat) {
    exists j: nat :: j < |rs| && AnyFor(rs[j].messagesDeleted, m)
      && forall k: nat | j < k < |rs| :: !AnyFor(rs[k].messagesAdded, m)
  }

  lemma DeletedInLast(rs: seq<Record>, m: nat)
    requires rs != []
    ensures var r := rs[|rs| - 1];
      DeletedIn(rs, m) <==> AnyFor(r.messagesDeleted, m) || (DeletedIn(rs[..|rs| - 1], m) && !AnyFor(r.messagesAdded, m))
  {
    var n := |rs| - 1;
    var front := rs[..n];
    assert forall j: nat | j < n :: front[j] == rs[j];
    if DeletedIn(front, m) && !AnyFor(rs[n].messagesAdded, m) {
      var j: nat :| j < |front| && AnyFor(front[j].messagesDeleted, m)
        && forall k: nat | j < k < |front| :: !AnyFor(front[k].messagesAdded, m);
      assert AnyFor(rs[j].messagesDeleted, m);
    }
    if AnyFor(rs[n].messagesDeleted, m) { assert n < |rs|; }
    if DeletedIn(rs, m) && !AnyFor(rs[n].messagesDeleted, m) {
      var j: nat :| j < |rs| && AnyFor(rs[j].messagesDeleted, m)
        && forall k: nat | j < k < |rs| :: !AnyFor(rs[k].messagesAdded, m);
      assert AnyFor(front[j].messagesDeleted, m);
    }
  }

  /** One page more: its own records decide, or leave the decision to the pages before. */
  lemma {:induction false} DeletedLastPage(pages: seq<Page>, m: nat)
    requires pages != []
    ensures var rs := pages[|pages| - 1].history; DeletedLast(pages, m) <==>
      DeletedIn(rs, m)
      || (DeletedLast(pages[..|pages| - 1], m) && forall j: nat | j < |rs| :: !AnyFor(rs[j].messagesAdded, m))
  {
    var n := |pages| - 1;
    var front, rs := pages[..n], pages[n].history;
    assert forall i: nat, j: nat | At(front, i, j) :: At(pages, i, j) && front[i] == pages[i];
    if DeletedIn(rs, m) {
      var j: nat :| j < |rs| && AnyFor(rs[j].messagesDeleted, m)
        && forall k: nat | j < k < |rs| :: !AnyFor(rs[k].messagesAdded, m);
      assert At(pages, n, j) && NotAddedAfter(pages, n, j, m);
    }
    if DeletedLast(front, m) && forall j: nat | j < |rs| :: !AnyFor(rs[j].messagesAdded, m) {
      var i: nat, j: nat :|
        At(front, i, j) && AnyFor(front[i].history[j].messagesDeleted, m) && NotAddedAfter(front, i, j, m);
      forall i2: nat, j2: nat | At(pages, i2, j2) && Later(i, j, i2, j2)
        ensures !AnyFor(pages[i2].history[j2].messagesAdded, m)
      {
        if i2 < n { assert At(front, i2, j2); }
      }
      assert At(pages, i, j) && NotAddedAfter(pages, i, j, m);
    }
    if DeletedLast(pages, m) { LastPageOrBefore(pages, m); }
  }

  lemma {:induction false} LastPageOrBefore(pages: seq<Page>, m: nat)
    requires pages != [] && DeletedLast(pages, m)
    ensures var rs := pages[|pages| - 1].history;
      DeletedIn(rs, m)
      || (DeletedLast(pages[..|pages| - 1], m) && forall j: nat | j < |rs| :: !AnyFor(rs[j].messagesAdded, m))
  {
    var n := |pages| - 1;
    var front, rs := pages[..n], pages[n].history;
    var i: nat, j: nat :|
      At(pages, i, j) && AnyFor(pages[i].history[j].messagesDeleted, m) && NotAddedAfter(pages, i, j, m);
    if i == n {
      forall k: nat | j < k < |rs| ensures !AnyFor(rs[k].messagesAdded, m) { assert At(pages, n, k) && Later(n, j, n, k); }
    } else {
      forall k: nat | k < |rs| ensures !AnyFor(rs[k].messagesAdded, m) { assert At(pages, n, k) && Later(i, j, n, k); }
      forall i2: nat, j2: nat | At(front, i2, j2) && Later(i, j, i2, j2)
        ensures !AnyFor(front[i2].history[j2].messagesAdded, m)
      {
        assert At(pages, i2, j2) && front[i2] == pages[i2];
      }
      assert At(front, i, j) && NotAddedAfter(front, i, j, m) && front[i] == pages[i];
    }
  }

  /** Read off the lists: what the last add or delete of a message says. */
  lemma {:induction false} PagesLast(pages: seq<Page>, m: nat)
    ensures var last := LastAddOrDelete(PagesTouches(pages), m);
      && (last.None? <==> NeverAddedOrDeleted(pages, m))
      && (last.Some? && last.value.Deleted? <==> DeletedLast(pages, m))
  {
    if pages != [] {
      var n := |pages| - 1;
      var front, rs := pages[..n], pages[n].history;
      PagesLast(front, m);
      RecordsLast(rs, m);
      LastConcat(PagesTouches(front), RecordsTouches(rs), m);
      DeletedLastPage(pages, m);
      NeverOnPage(pages, m);
    }
  }

  lemma NeverOnPage(pages: seq<Page>, m: nat)
    requires pages != []
    ensures var rs := pages[|pages| - 1].history; NeverAddedOrDeleted(pages, m) <==>
      NeverAddedOrDeleted(pages[..|pages| - 1], m)
      && forall j: nat | j < |rs| :: !AnyFor(rs[j].messagesAdded, m) && !AnyFor(rs[j].messagesDeleted, m)
  {
    var n := |pages| - 1;
    var front, rs := pages[..n], pages[n].history;
    assert forall i: nat, j: nat | At(front, i, j) :: At(pages, i, j) && front[i] == pages[i];
    forall i: nat, j: nat | At(pages, i, j) ensures i == n || (At(front, i, j) && front[i] == pages[i]) {}
    assert forall j: nat | j < |rs| :: At(pages, n, j);
  }

  // ---- What the fold of the pages reports ----

  lemma MentionedEvent(pages: seq<Page>, e: Touch)
    requires e in PagesTouches(pages)
    ensures Mentioned(pages, e.message, e.thread)
  {
    PagesHold(pages, e);
    var i: nat, j: nat :| At(pages, i, j) && Names(pages[i].history[j], e);
    var r := pages[i].history[j];
    NamesMentions(r, e);
  }

  lemma NamesMentions(r: Record, e: Touch)
    requires Names(r, e)
    ensures Mentions(r, e.message, e.thread)
  {
    var ref := MessageRef(Some(e.message), Some(e.thread));
    if e.Labelled? {
      if removed: seq<nat> :| LabelRef(ref, removed) in r.labelsRemoved {
        var k :| 0 <= k < |r.labelsRemoved| && r.labelsRemoved[k] == LabelRef(ref, removed);
      }
      if added: seq<nat> :| LabelRef(ref, added) in r.labelsAdded {
        var k :| 0 <= k < |r.labelsAdded| && r.labelsAdded[k] == LabelRef(ref, added);
      }
    }
  }

  /** Every entry with both ids makes an event. */
  lemma MentionsNames(r: Record, m: nat, t: nat) returns (e: Touch)
    requires Mentions(r, m, t)
    ensures Names(r, e) && e.message == m && e.thread == t
  {
    var ref := MessageRef(Some(m), Some(t));
    if ref in r.messagesAdded { return Added(m, t); }
    if ref in r.messagesDeleted { return Deleted(m, t); }
    if LabelsFor(r.labelsAdded, m, t) {
      var k :| 0 <= k < |r.labelsAdded| && r.labelsAdded[k].message == ref;
      assert LabelRef(ref, r.labelsAdded[k].labelIds) == r.labelsAdded[k];
      return Labelled(m, t, r.labelsAdded[k].labelIds, []);
    }
    var k :| 0 <= k < |r.labelsRemoved| && r.labelsRemoved[k].message == ref;
    assert LabelRef(ref, r.labelsRemoved[k].labelIds) == r.labelsRemoved[k];
    return Labelled(m, t, [], r.labelsRemoved[k].labelIds);
  }

  lemma EventMentioned(pages: seq<Page>, m: nat, t: nat) returns (k: nat)
    requires Mentioned(pages, m, t)
    ensures k < |PagesTouches(pages)| && PagesTouches(pages)[k].message == m && PagesTouches(pages)[k].thread == t
  {
    var i: nat, j: nat :| At(pages, i, j) && Mentions(pages[i].history[j], m, t);
    var e := MentionsNames(pages[i].history[j], m, t);
    PagesHold(pages, e);
    k :| 0 <= k < |PagesTouches(pages)| && PagesTouches(pages)[k] == e;
  }

  lemma PagesFixed(pages: seq<Page>)
    requires OneThread(pages)
    ensures FixedThreads(PagesTouches(pages))
  {
    var es := PagesTouches(pages);
    forall i, j | 0 <= i < |es| && 0 <= j < |es| && es[i].message == es[j].message ensures es[i].thread == es[j].thread {
      MentionedEvent(pages, es[i]);
      MentionedEvent(pages, es[j]);
    }
  }

  lemma {:induction false} PagesTags(pages: seq<Page>, m: nat, tag: nat, removing: bool)
    ensures LabelEvent(PagesTouches(pages), m, tag, removing) <==> Tagged(pages, m, tag, removing)
  {
    var es := PagesTouches(pages);
    if LabelEvent(es, m, tag, removing) {
      var k :| 0 <= k < |es| && Carries(es[k], m, tag, removing);
      PagesHold(pages, es[k]);
      var i: nat, j: nat :| At(pages, i, j) && Names(pages[i].history[j], es[k]);
      NamesTag(pages[i].history[j], es[k], tag, removing);
    }
    if Tagged(pages, m, tag, removing) {
      var i: nat, j: nat :| At(pages, i, j)
        && TagFor(if removing then pages[i].history[j].labelsRemoved else pages[i].history[j].labelsAdded, m, tag);
      var e := TagNames(pages[i].history[j], m, tag, removing);
      PagesHold(pages, e);
      var k :| 0 <= k < |es| && es[k] == e;
    }
  }

  lemma NamesTag(r: Record, e: Touch, tag: nat, removing: bool)
    requires Names(r, e) && Carries(e, e.message, tag, removing)
    ensures TagFor(if removing then r.labelsRemoved else r.labelsAdded, e.message, tag)
  {
    var ls := if removing then r.labelsRemoved else r.labelsAdded;
    var tags := if removing then e.removed else e.added;
    var k :| 0 <= k < |ls| && ls[k] == LabelRef(MessageRef(Some(e.message), Some(e.thread)), tags);
  }

  lemma TagNames(r: Record, m: nat, tag: nat, removing: bool) returns (e: Touch)
    requires TagFor(if removing then r.labelsRemoved else r.labelsAdded, m, tag)
    ensures Names(r, e) && Carries(e, m, tag, removing)
  {
    var ls := if removing then r.labelsRemoved else r.labelsAdded;
    var k :| 0 <= k < |ls| && ls[k].message.id == Some(m) && ls[k].message.threadId.Some? && tag in ls[k].labelIds;
    var t := ls[k].message.threadId.value;
    assert ls[k] == LabelRef(MessageRef(Some(m), Some(t)), ls[k].labelIds);
    e := if removing then Labelled(m, t, [], ls[k].labelIds) else Labelled(m, t, ls[k].labelIds, []);
  }

  /** One change per message the pages name, in its thread: deleted when no later record adds
      it again, a label change when the pages neither add nor delete it, with all its labels. */
  ghost predicate Reports(pages: seq<Page>, changes: seq<RawChange>) {
    && DistinctMessages(changes)
    && (forall m: nat, t: nat :: Mentioned(pages, m, t) <==>
          exists k :: 0 <= k < |changes| && changes[k].message == m && changes[k].thread == t)
    && (forall c | c in changes :: c.DeletedChange? <==> DeletedLast(pages, c.message))
    && (forall c | c in changes :: c.LabelsChange? <==> NeverAddedOrDeleted(pages, c.message))
    && (forall c, tag: nat | c in changes && c.LabelsChange? ::
          (tag in c.labelsAdded <==> Tagged(pages, c.message, tag, false))
          && (tag in c.labelsRemoved <==> Tagged(pages, c.message, tag, true)))
  }

  lemma FoldMentions(pages: seq<Page>, m: nat, t: nat)
    requires OneThread(pages)
    ensures var changes := Fold(PagesTouches(pages)); Mentioned(pages, m, t) <==>
      exists k :: 0 <= k < |changes| && changes[k].message == m && changes[k].thread == t
  {
    var es := PagesTouches(pages);
    var changes := Fold(es);
    PagesFixed(pages);
    FoldIsReplay(es);
    if Mentioned(pages, m, t) {
      var k := EventMentioned(pages, m, t);
      assert Touches(es, m);
      assert Entry(es, changes[IndexOf(changes, m)]);
    }
    if k :| 0 <= k < |changes| && changes[k].message == m && changes[k].thread == t {
      assert Entry(es, changes[k]);
      var i :| 0 <= i < |es| && es[i].message == m && es[i].thread == t;
      MentionedEvent(pages, es[i]);
    }
  }

  lemma FoldTags(pages: seq<Page>, c: RawChange, tag: nat)
    requires OneThread(pages) && c in Fold(PagesTouches(pages)) && c.LabelsChange?
    ensures tag in c.labelsAdded <==> Tagged(pages, c.message, tag, false)
    ensures tag in c.labelsRemoved <==> Tagged(pages, c.message, tag, true)
  {
    var es := PagesTouches(pages);
    PagesFixed(pages);
    FoldIsReplay(es);
    assert Entry(es, c);
    var k :| 0 <= k < |es| && es[k].message == c.message && es[k].thread == c.thread;
    assert Touches(es, c.message);
    LabelsCollected(es, c.message);
    var at := IndexOf(Fold(es), c.message);
    assert Fold(es)[at] == c;
    PagesTags(pages, c.message, tag, false);
    PagesTags(pages, c.message, tag, true);
  }

  lemma {:induction false} FoldKinds(pages: seq<Page>, c: RawChange)
    requires OneThread(pages) && c in Fold(PagesTouches(pages))
    ensures c.DeletedChange? <==> DeletedLast(pages, c.message)
    ensures c.LabelsChange? <==> NeverAddedOrDeleted(pages, c.message)
  {
    PagesFixed(pages);
    FoldIsReplay(PagesTouches(pages));
    assert Entry(PagesTouches(pages), c);
    PagesLast(pages, c.message);
  }

  /** So the fold of the pages' events reports the pages. */
  lemma {:induction false} FoldReports(pages: seq<Page>)
    requires OneThread(pages)
    ensures Reports(pages, Fold(PagesTouches(pages)))
  {
    var changes := Fold(PagesTouches(pages));
    PagesFixed(pages);
    FoldIsReplay(PagesTouches(pages));
    forall m: nat, t: nat ensures Mentioned(pages, m, t) <==>
      exists k :: 0 <= k < |changes| && changes[k].message == m && changes[k].thread == t
    {
      FoldMentions(pages, m, t);
    }
    forall c | c in changes
      ensures c.DeletedChange? <==> DeletedLast(pages, c.message)
      ensures c.LabelsChange? <==> NeverAddedOrDeleted(pages, c.message)
    {
      FoldKinds(pages, c);
    }
    forall c, tag: nat | c in changes && c.LabelsChange?
      ensures (tag in c.labelsAdded <==> Tagged(pages, c.message, tag, false))
              && (tag in c.labelsRemoved <==> Tagged(pages, c.message, tag, true))
    {
      FoldTags(pages, c, tag);
    }
  }

  /** Of any change list that reports the pages: the deleted messages are those whose last
      add-or-delete entry deletes them, and the threads to refetch those any entry names. */
  lemma {:induction false} ReportsDecide(pages: seq<Page>, changes: seq<RawChange>)
    requires Reports(pages, changes)
    ensures forall m: nat :: m in DeletedIds(changes) <==> DeletedLast(pages, m)
    ensures forall t: nat :: t in Threads(changes) <==> exists m: nat :: Mentioned(pages, m, t)
  {
    forall m: nat ensures m in DeletedIds(changes) <==> DeletedLast(pages, m) {
      DeletedIdsAre(changes, m);
      if DeletedLast(pages, m) {
        DeletedIsMentioned(pages, m);
      }
    }
    forall t: nat ensures t in Threads(changes) <==> exists m: nat :: Mentioned(pages, m, t) {
      if k :| 0 <= k < |changes| && changes[k].thread == t { assert Mentioned(pages, changes[k].message, t); }
    }
  }

  lemma DeletedIsMentioned(pages: seq<Page>, m: nat)
    requires DeletedLast(pages, m)
    ensures exists t: nat :: Mentioned(pages, m, t)
  {
    var i: nat, j: nat :|
      At(pages, i, j) && AnyFor(pages[i].history[j].messagesDeleted, m) && NotAddedAfter(pages, i, j, m);
    var ms := pages[i].history[j].messagesDeleted;
    var k :| 0 <= k < |ms| && ms[k].id == Some(m) && ms[k].threadId.Some?;
    assert ms[k] == MessageRef(Some(m), Some(ms[k].threadId.value));
    assert Mentions(pages[i].history[j], m, ms[k].threadId.value);
    assert Mentioned(pages, m, ms[k].threadId.value);
  }

  lemma {:induction false} PagesConcat(pages: seq<Page>, more: seq<Page>)
    ensures PagesTouches(pages + more) == PagesTouches(pages) + PagesTouches(more)
    decreases |more|
  {
    if more == [] {
      assert pages + more == pages;
    } else {
      var front, last := more[..|more| - 1], more[|more| - 1];
      assert (pages + more)[..|pages + more| - 1] == pages + front;
      PagesConcat(pages, front);
      Associative(PagesTouches(pages), PagesTouches(front), RecordsTouches(last.history));
    }
  }

  lemma Associative<T>(a: seq<T>, b: seq<T>, c: seq<T>)
    ensures (a + b) + c == a + (b + c)
  {}

  /** The threads come in the order the pages first name them: further pages only append. */
  lemma PagesStable(pages: seq<Page>, more: seq<Page>)
    requires OneThread(pages + more)
    ensures Threads(Fold(PagesTouches(pages))) <= Threads(Fold(PagesTouches(pages + more)))
  {
    PagesConcat(pages, more);
    PagesFixed(pages + more);
    ThreadsStable(PagesTouches(pages), PagesTouches(more));
  }

  // ---- The loops ----

  method MergeLabelChange(changes: seq<RawChange>, message: nat, thread: nat, added: seq<nat>, removed: seq<nat>)
    returns (merged: seq<RawChange>)
    ensures merged == FoldTouch(changes, Labelled(message, thread, added, removed))
  {
    var i := IndexOf(changes, message);
    if i < |changes| && !changes[i].LabelsChange? { return changes; }
    var wasAdded, wasRemoved := [], [];
    if i < |changes| { wasAdded, wasRemoved := changes[i].labelsAdded, changes[i].labelsRemoved; }
    merged := Put(changes, LabelsChange(message, thread, Union(wasAdded, added), Union(wasRemoved, removed)));
  }

  method FoldAdds(ms: seq<MessageRef>, start: seq<RawChange>) returns (changes: seq<RawChange>)
    ensures changes == FoldFrom(start, Adds(ms))
  {
    changes := start;
    for i := 0 to |ms|
      invariant changes == FoldFrom(start, Adds(ms[..i]))
    {
      assert ms[..i + 1][..i] == ms[..i];
      var m := ms[i];
      if HasIds(m) {
        FoldOneMore(start, Adds(ms[..i]), Added(m.id.value, m.threadId.value));
        changes := Put(changes, UpsertedChange(m.id.value, m.threadId.value));
      } else {
        assert Adds(ms[..i]) + [] == Adds(ms[..i]);
      }
    }
    assert ms[..|ms|] == ms;
  }

  method FoldDeletes(ms: seq<MessageRef>, start: seq<RawChange>) returns (changes: seq<RawChange>)
    ensures changes == FoldFrom(start, Deletes(ms))
  {
    changes := start;
    for i := 0 to |ms|
      invariant changes == FoldFrom(start, Deletes(ms[..i]))
    {
      assert ms[..i + 1][..i] == ms[..i];
      var m := ms[i];
      if HasIds(m) {
        FoldOneMore(start, Deletes(ms[..i]), Deleted(m.id.value, m.threadId.value));
        changes := Put(changes, DeletedChange(m.id.value, m.threadId.value));
      } else {
        assert Deletes(ms[..i]) + [] == Deletes(ms[..i]);
      }
    }
    assert ms[..|ms|] == ms;
  }

  method FoldLabels(ls: seq<LabelRef>, removing: bool, start: seq<RawChange>) returns (changes: seq<RawChange>)
    ensures changes == FoldFrom(start, Labels(ls, removing))
  {
    changes := start;
    for i := 0 to |ls|
      invariant changes == FoldFrom(start, Labels(ls[..i], removing))
    {
      assert ls[..i + 1][..i] == ls[..i];
      var l := ls[i];
      if HasIds(l.message) {
        FoldOneMore(start, Labels(ls[..i], removing), LabelTouch(l, removing));
        changes := MergeLabelChange(changes, l.message.id.value, l.message.threadId.value,
                                    if removing then [] else l.labelIds, if removing then l.labelIds else []);
      } else {
        assert Labels(ls[..i], removing) + [] == Labels(ls[..i], removing);
      }
    }
    assert ls[..|ls|] == ls;
  }

  /** `foldHistoryRecord`: the record's four lists, in this order. */
  method FoldHistoryRecord(r: Record, start: seq<RawChange>) returns (changes: seq<RawChange>)
    ensures changes == FoldFrom(start, RecordTouches(r))
  {
    var adds, deletes, on, off := Adds(r.messagesAdded), Deletes(r.messagesDeleted),
      Labels(r.labelsAdded, false), Labels(r.labelsRemoved, true);
    changes := FoldAdds(r.messagesAdded, start);
    changes := FoldDeletes(r.messagesDeleted, changes);
    FoldConcat(start, adds, deletes);
    changes := FoldLabels(r.labelsAdded, false, changes);
    FoldConcat(start, adds + deletes, on);
    changes := FoldLabels(r.labelsRemoved, true, changes);
    FoldConcat(start, adds + deletes + on, off);
  }

  method FoldRecords(rs: seq<Record>, start: seq<RawChange>) returns (changes: seq<RawChange>)
    ensures changes == FoldFrom(start, RecordsTouches(rs))
  {
    changes := start;
    for i := 0 to |rs|
      invariant changes == FoldFrom(start, RecordsTouches(rs[..i]))
    {
      assert rs[..i + 1][..i] == rs[..i];
      FoldConcat(start, RecordsTouches(rs[..i]), RecordTouches(rs[i]));
      changes := FoldHistoryRecord(rs[i], changes);
    }
    assert rs[..|rs|] == rs;
  }

  /** The last history id any page states, or the one asked from. */
  function LatestHistoryId(pages: seq<Page>, cursor: nat): nat {
    if pages == [] then cursor
    else if pages[|pages| - 1].historyId.Some? then pages[|pages| - 1].historyId.value
    else LatestHistoryId(pages[..|pages| - 1], cursor)
  }

  lemma {:induction false} LatestIs(pages: seq<Page>, cursor: nat)
    ensures Latest(pages, cursor, LatestHistoryId(pages, cursor))
  {
    if pages != [] && pages[|pages| - 1].historyId.None? {
      var front := pages[..|pages| - 1];
      LatestIs(front, cursor);
      if i :| 0 <= i < |front| && front[i].historyId == Some(LatestHistoryId(front, cursor))
              && forall j | i < j < |front| :: front[j].historyId.None? {
        assert pages[i] == front[i] && forall j | i < j < |pages| :: pages[j].historyId.None?;
      }
    }
  }

  /** `id` is stated by some page and by none after it, or is the cursor when no page states one. */
  ghost predicate Latest(pages: seq<Page>, cursor: nat, id: nat) {
    || (id == cursor && forall j | 0 <= j < |pages| :: pages[j].historyId.None?)
    || exists i :: 0 <= i < |pages| && pages[i].historyId == Some(id) && forall j | i < j < |pages| :: pages[j].historyId.None?
  }

  /** `syncDelta` over the pages the provider returns: a report of what their lists name, and
      the last history id a page states. */
  method SyncDelta(pages: seq<Page>, cursor: nat) returns (changes: seq<RawChange>, newCursor: nat)
    ensures changes == Fold(PagesTouches(pages)) && newCursor == LatestHistoryId(pages, cursor)
    ensures OneThread(pages) ==> Reports(pages, changes)
    ensures Latest(pages, cursor, newCursor)
  {
    changes, newCursor := [], cursor;
    for i := 0 to |pages|
      invariant changes == Fold(PagesTouches(pages[..i]))
      invariant newCursor == LatestHistoryId(pages[..i], cursor)
    {
      if pages[i].historyId.Some? { newCursor := pages[i].historyId.value; }
      assert pages[..i + 1][..i] == pages[..i];
      FoldConcat([], PagesTouches(pages[..i]), RecordsTouches(pages[i].history));
      changes := FoldRecords(pages[i].history, changes);
    }
    assert pages[..|pages|] == pages;
    if OneThread(pages) { FoldReports(pages); }
    LatestIs(pages, cursor);
  }

  /** `foldChanges`. */
  method FoldChanges(changes: seq<RawChange>) returns (threadIds: seq<nat>, deletedMessageIds: seq<nat>)
    ensures threadIds == Threads(changes) && deletedMessageIds == DeletedIds(changes)
    ensures forall t: nat :: t in threadIds <==> exists k :: 0 <= k < |changes| && changes[k].thread == t
    ensures forall m: nat :: m in deletedMessageIds <==>
      exists k :: 0 <= k < |changes| && changes[k].DeletedChange? && changes[k].message == m
  {
    threadIds, deletedMessageIds := [], [];
    for i := 0 to |changes|
      invariant threadIds == Threads(changes[..i]) && deletedMessageIds == DeletedIds(changes[..i])
    {
      var change := changes[i];
      assert changes[..i + 1][..i] == changes[..i];
      if change.DeletedChange? {
        deletedMessageIds := deletedMessageIds + [change.message];
        if change.thread !in threadIds { threadIds := threadIds + [change.thread]; }
      } else if change.thread !in threadIds {
        threadIds := threadIds + [change.thread];
      }
    }
    assert changes[..|changes|] == changes;
    forall m: nat ensures m in deletedMessageIds <==> MarkedDeleted(changes, m) {
      DeletedIdsAre(changes, m);
    }
  }
}
