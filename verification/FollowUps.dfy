/** Follow-up reminders and their digest (`apps/api/src/services/followUps.ts`,
    `apps/api/src/services/digest.ts`).

    A check looks at the open reminders one by one, resolves those whose thread has an answer,
    triggers those that came due, and then mails a digest per touched user. Several checks,
    users, arriving and disappearing messages and crashes interleave between any two database
    statements. Times are milliseconds.
 */
module FollowUps {
  import opened Common

  const CHECK_BATCH: nat := 500
  const MAX_ITEMS: nat := 10
  const GRACE_MS := 60_000
  const DAY_MS := 24 * 3_600_000

  datatype Status = PENDING | TRIGGERED | SNOOZED | RESOLVED | DISMISSED

  datatype Reminder = Reminder(
    user: nat, thread: nat, dueAt: int, createdAt: int, status: Status,
    snoozedUntil: Option<int>, digestSentAt: Option<int>)

  datatype Message = Message(thread: nat, outbound: bool, sentAt: int)

  /** A reminder as the check's first query saw it. */
  datatype Snap = Snap(id: nat, row: Reminder)

  datatype Pc =
    | Examining(now: int, todo: seq<Snap>, touched: seq<nat>)
    | Looked(now: int, todo: seq<Snap>, touched: seq<nat>, answered: bool)
    | Notifying(now: int, users: seq<nat>)
    | Mailing(now: int, users: seq<nat>, ids: seq<nat>)
    | Marking(now: int, users: seq<nat>, ids: seq<nat>)

  /** What a worker did that a user notices. */
  datatype Act = Triggered(worker: nat, id: nat) | Mailed(worker: nat, user: nat, ids: seq<nat>)

  datatype World = World(
    reminders: map<nat, Reminder>, created: set<nat>, messages: map<nat, Message>,
    optedIn: set<nat>, addresses: set<nat>, workers: map<nat, Pc>, clock: int, log: seq<Act>)

  /** `SentUnheard`: the mail went out and the sender was told it had not. */
  datatype Delivery = Sent | SentUnheard | NotSent

  datatype Event =
    | StartCheck(worker: nat, only: Option<nat>, ids: seq<nat>)
    | Look(worker: nat, fails: bool)
    | Settle(worker: nat, fails: bool)
    | Collect(worker: nat, ids: seq<nat>, fails: bool)
    | Send(worker: nat, delivery: Delivery)
    | Mark(worker: nat, fails: bool)
    | Crash(worker: nat)
    | Create(id: nat, user: nat, thread: nat, days: nat)
    | Dismiss(id: nat)
    | Snooze(id: nat, days: nat)
    | Remove(id: nat)
    | Arrive(message: nat, content: Message)
    | Vanish(message: nat)
    | Prefer(user: nat, digest: bool, address: bool)
    | Wait(ms: nat)

  // ---- Queries ----

  predicate Open(status: Status) {
    status in {PENDING, TRIGGERED, SNOOZED}
  }

  /** The condition that cancels a reminder: anything inbound since a minute before it. */
  predicate Answers(m: Message, r: Reminder) {
    m.thread == r.thread && !m.outbound && m.sentAt >= r.createdAt - GRACE_MS
  }

  predicate Answered(messages: map<nat, Message>, r: Reminder) {
    exists m | m in messages :: Answers(messages[m], r)
  }

  function OpenIds(reminders: map<nat, Reminder>, user: Option<nat>): set<nat> {
    set id | id in reminders && Open(reminders[id].status) && (user.Some? ==> reminders[id].user == user.value)
  }

  predicate Mailable(r: Reminder, user: nat, now: int) {
    r.user == user && r.status == TRIGGERED && r.dueAt <= now && r.digestSentAt.None?
    && (r.snoozedUntil.None? || r.snoozedUntil.value <= now)
  }

  function MailableIds(reminders: map<nat, Reminder>, user: nat, now: int): set<nat> {
    set id | id in reminders && Mailable(reminders[id], user, now)
  }

  predicate Distinct(ids: seq<nat>) {
    forall i, j | 0 <= i < j < |ids| :: ids[i] != ids[j]
  }

  /** An answer to `orderBy: dueAt asc, take: limit` over the matching rows. */
  predicate Batch(reminders: map<nat, Reminder>, matching: set<nat>, limit: nat, ids: seq<nat>) {
    && Distinct(ids) && |ids| <= limit
    && (forall id | id in ids :: id in matching && id in reminders)
    && (forall i, j | 0 <= i < j < |ids| :: reminders[ids[i]].dueAt <= reminders[ids[j]].dueAt)
    && (|ids| < limit ==> forall id | id in matching :: id in ids)
    && (forall id, other | id in ids && other in matching && other !in ids && other in reminders ::
          reminders[id].dueAt <= reminders[other].dueAt)
  }

  function SetOf(ids: seq<nat>): set<nat> {
    set id | id in ids
  }

  lemma {:induction false} DistinctCard(ids: seq<nat>)
    requires Distinct(ids)
    ensures |SetOf(ids)| == |ids|
  {
    if ids != [] {
      DistinctCard(ids[1..]);
      assert SetOf(ids) == {ids[0]} + SetOf(ids[1..]);
    }
  }

  lemma SubsetOfSameSize(a: set<nat>, b: set<nat>)
    requires a <= b && |a| >= |b|
    ensures a == b
  {
    assert |b| == |a| + |b - a| by { assert b == a + (b - a); }
  }

  /** A batch holds everything when everything fits. */
  lemma BatchIsAll(reminders: map<nat, Reminder>, matching: set<nat>, limit: nat, ids: seq<nat>)
    requires Batch(reminders, matching, limit, ids) && |matching| <= limit
    ensures forall id | id in matching :: id in ids
  {
    if |ids| == limit {
      DistinctCard(ids);
      SubsetOfSameSize(SetOf(ids), matching);
    }
  }

  function Snaps(reminders: map<nat, Reminder>, ids: seq<nat>): (r: seq<Snap>)
    requires forall id | id in ids :: id in reminders
    ensures |r| == |ids| && forall i | 0 <= i < |ids| :: r[i] == Snap(ids[i], reminders[ids[i]])
  {
    seq(|ids|, i requires 0 <= i < |ids| && (forall id | id in ids :: id in reminders) => Snap(ids[i], reminders[ids[i]]))
  }

  // ---- One step ----

  function Next(now: int, todo: seq<Snap>, touched: seq<nat>): Pc {
    if todo == [] then Notifying(now, touched) else Examining(now, todo, touched)
  }

  /** A worker with nobody left to notify is done. */
  function Put(s: World, w: nat, pc: Pc): World {
    if pc.Notifying? && pc.users == [] then s.(workers := s.workers - {w}) else s.(workers := s.workers[w := pc])
  }

  function SetStatus(reminders: map<nat, Reminder>, id: nat, status: Status): map<nat, Reminder>
    requires id in reminders
  {
    reminders[id := reminders[id].(status := status)]
  }

  function Touch(touched: seq<nat>, user: nat): seq<nat> {
    if user in touched then touched else touched + [user]
  }

  /** What the check makes of a reminder, if its conditional update finds it as expected. */
  function VerdictStatus(reminders: map<nat, Reminder>, pc: Pc, fails: bool): (r: Option<Status>)
    requires pc.Looked? && pc.todo != []
    ensures r.Some? ==> pc.todo[0].id in reminders && Open(reminders[pc.todo[0].id].status)
    ensures r.Some? ==> r.value == RESOLVED || (r.value == TRIGGERED && reminders[pc.todo[0].id].status == PENDING)
  {
    var snap := pc.todo[0];
    if fails || snap.id !in reminders then None
    else if pc.answered then if Open(reminders[snap.id].status) then Some(RESOLVED) else None
    else if snap.row.status == PENDING && snap.row.dueAt <= pc.now && reminders[snap.id].status == PENDING then Some(TRIGGERED)
    else None
  }

  /** Users whose digest the check will look at: of reminders it triggered or found triggered. */
  function VerdictTouched(reminders: map<nat, Reminder>, pc: Pc, fails: bool): seq<nat>
    requires pc.Looked? && pc.todo != []
  {
    var snap := pc.todo[0];
    if VerdictStatus(reminders, pc, fails) == Some(TRIGGERED) || (!pc.answered && snap.row.status == TRIGGERED)
    then Touch(pc.touched, snap.row.user) else pc.touched
  }

  /** One reminder's verdict, with its conditional update. */
  function Verdict(s: World, w: nat, pc: Pc, fails: bool): World
    requires pc.Looked? && pc.todo != []
  {
    var status := VerdictStatus(s.reminders, pc, fails);
    var reminders := if status.Some? then SetStatus(s.reminders, pc.todo[0].id, status.value) else s.reminders;
    var log := if status == Some(TRIGGERED) then s.log + [Triggered(w, pc.todo[0].id)] else s.log;
    Put(s.(reminders := reminders, log := log), w,
        Next(pc.now, pc.todo[1..], VerdictTouched(s.reminders, pc, fails)))
  }

  function MarkAll(reminders: map<nat, Reminder>, ids: seq<nat>, now: int): map<nat, Reminder> {
    map id | id in reminders :: if id in ids then reminders[id].(digestSentAt := Some(now)) else reminders[id]
  }

  function Delivered(s: World, w: nat, pc: Pc, delivery: Delivery): World
    requires pc.Mailing? && pc.users != []
  {
    var mailed := s.(log := s.log + [Mailed(w, pc.users[0], pc.ids)]);
    if delivery.Sent? then Put(mailed, w, Marking(pc.now, pc.users, pc.ids))
    else Put(if delivery.NotSent? then s else mailed, w, Notifying(pc.now, pc.users[1..]))
  }

  function Step(s: World, e: Event): World {
    match e
    case StartCheck(w, user, ids) =>
      if w in s.workers || !Batch(s.reminders, OpenIds(s.reminders, user), CHECK_BATCH, ids) then s
      else Put(s, w, Next(s.clock, Snaps(s.reminders, ids), []))
    case Look(w, fails) =>
      if w in s.workers && s.workers[w].Examining? && s.workers[w].todo != [] then
        var pc := s.workers[w];
        if fails then Put(s, w, Next(pc.now, pc.todo[1..], pc.touched))
        else Put(s, w, Looked(pc.now, pc.todo, pc.touched, Answered(s.messages, pc.todo[0].row)))
      else s
    case Settle(w, fails) =>
      if w in s.workers && s.workers[w].Looked? && s.workers[w].todo != [] then Verdict(s, w, s.workers[w], fails) else s
    case Collect(w, ids, fails) =>
      if w in s.workers && s.workers[w].Notifying? && s.workers[w].users != [] then
        var pc := s.workers[w];
        var user := pc.users[0];
        if fails || user !in s.optedIn || user !in s.addresses || MailableIds(s.reminders, user, pc.now) == {} then
          Put(s, w, Notifying(pc.now, pc.users[1..]))
        else if Batch(s.reminders, MailableIds(s.reminders, user, pc.now), MAX_ITEMS, ids) then
          Put(s, w, Mailing(pc.now, pc.users, ids))
        else s
      else s
    case Send(w, delivery) =>
      if w in s.workers && s.workers[w].Mailing? && s.workers[w].users != [] then
        Delivered(s, w, s.workers[w], delivery)
      else s
    case Mark(w, fails) =>
      if w in s.workers && s.workers[w].Marking? && s.workers[w].users != [] then
        var pc := s.workers[w];
        Put(if fails then s else s.(reminders := MarkAll(s.reminders, pc.ids, pc.now)), w, Notifying(pc.now, pc.users[1..]))
      else s
    case Crash(w) => s.(workers := s.workers - {w})
    case Create(id, user, thread, days) =>
      if id in s.created then s
      else s.(reminders := s.reminders[id := Reminder(user, thread, s.clock + days * DAY_MS, s.clock, PENDING, None, None)],
              created := s.created + {id})
    case Dismiss(id) =>
      if id in s.reminders then s.(reminders := SetStatus(s.reminders, id, DISMISSED)) else s
    case Snooze(id, days) =>
      if id in s.reminders then
        s.(reminders := s.reminders[id :=
             s.reminders[id].(status := SNOOZED, snoozedUntil := Some(s.clock + days * DAY_MS), digestSentAt := None)])
      else s
    case Remove(id) => s.(reminders := s.reminders - {id})
    case Arrive(m, content) => if m in s.messages then s else s.(messages := s.messages[m := content])
    case Vanish(m) => s.(messages := s.messages - {m})
    case Prefer(user, digest, address) =>
      s.(optedIn := if digest then s.optedIn + {user} else s.optedIn - {user},
         addresses := if address then s.addresses + {user} else s.addresses - {user})
    case Wait(ms) => s.(clock := s.clock + ms)
  }

  function Run(s: World, events: seq<Event>): World
    decreases events
  {
    if events == [] then s else Run(Step(s, events[0]), events[1..])
  }

  lemma {:induction false} RunConcat(s: World, a: seq<Event>, b: seq<Event>)
    ensures Run(s, a + b) == Run(Run(s, a), b)
    decreases a
  {
    if a == [] {
      assert a + b == b;
    } else {
      assert (a + b)[1..] == a[1..] + b;
      RunConcat(Step(s, a[0]), a[1..], b);
    }
  }

  /** What goes on around the workers: they die, rows and messages come and go, time passes, */
  lemma Surroundings(s: World, w: nat, id: nat, m: nat, content: Message, ms: nat)
    ensures Step(s, Crash(w)) == s.(workers := s.workers - {w})
    ensures Step(s, Remove(id)) == s.(reminders := s.reminders - {id})
    ensures m !in s.messages ==> Step(s, Arrive(m, content)) == s.(messages := s.messages[m := content])
    ensures Step(s, Vanish(m)) == s.(messages := s.messages - {m})
    ensures Step(s, Wait(ms)) == s.(clock := s.clock + ms)
  {}

  /** and users opt in and out and change their address. */
  lemma Preferences(s: World, user: nat, digest: bool, address: bool, other: nat)
    ensures var t := Step(s, Prefer(user, digest, address));
      && (other in t.optedIn <==> if other == user then digest else other in s.optedIn)
      && (other in t.addresses <==> if other == user then address else other in s.addresses)
  {}

  // ---- The order of statuses ----

  /** Waiting, then shown as due, then never due again. */
  function Rank(status: Status): nat {
    match status
    case PENDING => 0
    case TRIGGERED => 1
    case _ => 2
  }

  /** What one step may do to a reminder. */
  predicate Evolves(was: Reminder, now: Reminder, snoozed: bool) {
    && Rank(was.status) <= Rank(now.status)
    && (now.user, now.thread, now.createdAt, now.dueAt) == (was.user, was.thread, was.createdAt, was.dueAt)
    && (!Open(was.status) && Open(now.status) ==> snoozed && now.status == SNOOZED)
    && (was.digestSentAt.Some? && now.digestSentAt.None? ==> now.status == SNOOZED)
  }

  predicate AllEvolve(was: map<nat, Reminder>, now: map<nat, Reminder>) {
    forall id | id in was && id in now :: Evolves(was[id], now[id], false)
  }

  lemma StatusEvolves(reminders: map<nat, Reminder>, id: nat, status: Status)
    requires id in reminders && Rank(reminders[id].status) <= Rank(status) && Open(reminders[id].status)
    ensures AllEvolve(reminders, SetStatus(reminders, id, status)) && AllEvolve(reminders, reminders)
    ensures SetStatus(reminders, id, status).Keys == reminders.Keys
  {}

  lemma VerdictEvolves(s: World, w: nat, pc: Pc, fails: bool)
    requires pc.Looked? && pc.todo != []
    ensures AllEvolve(s.reminders, Verdict(s, w, pc, fails).reminders)
    ensures Verdict(s, w, pc, fails).reminders.Keys == s.reminders.Keys
    ensures Verdict(s, w, pc, fails).created == s.created
  {
    var status := VerdictStatus(s.reminders, pc, fails);
    if status.Some? { StatusEvolves(s.reminders, pc.todo[0].id, status.value); }
  }

  lemma StatusStep(s: World, e: Event, id: nat)
    requires id in s.reminders && s.reminders.Keys <= s.created
    ensures id in Step(s, e).created
    ensures id in Step(s, e).reminders ==>
      Evolves(s.reminders[id], Step(s, e).reminders[id], e.Snooze? && e.id == id)
  {
    var t := Step(s, e);
    match e
    case Settle(w, fails) =>
      if w in s.workers && s.workers[w].Looked? && s.workers[w].todo != [] {
        VerdictEvolves(s, w, s.workers[w], fails);
      }
    case Mark(_, _) =>
    case Snooze(_, _) =>
    case Dismiss(_) =>
    case Create(_, _, _, _) =>
    case Remove(_) =>
    case _ => assert t.reminders == s.reminders;
  }

  /** No reminder is ever made open again except by a snooze, which asks for no status. */
  lemma {:induction false} OnlySnoozeReopens(s: World, events: seq<Event>, id: nat)
    requires s.reminders.Keys <= s.created && id in s.created
    requires id in s.reminders ==> !Open(s.reminders[id].status)
    requires forall e | e in events :: !(e.Snooze? && e.id == id)
    ensures var t := Run(s, events); id in t.reminders ==> !Open(t.reminders[id].status)
    decreases events
  {
    if events != [] {
      var t := Step(s, events[0]);
      assert events[0] in events;
      if id in s.reminders { StatusStep(s, events[0], id); }
      CreatedStep(s, events[0]);
      OnlySnoozeReopens(t, events[1..], id);
    }
  }

  lemma CreatedStep(s: World, e: Event)
    requires s.reminders.Keys <= s.created
    ensures Step(s, e).reminders.Keys <= Step(s, e).created && s.created <= Step(s, e).created
    ensures forall id: nat | id in s.created && id !in s.reminders :: id !in Step(s, e).reminders
  {}

  /** A dismissed reminder is reopened by a snooze, whatever the comment on dismissal says. */
  lemma SnoozeReopens(s: World, id: nat, days: nat)
    requires id in s.reminders && !Open(s.reminders[id].status)
    ensures Open(Step(s, Snooze(id, days)).reminders[id].status)
    ensures id in OpenIds(Step(s, Snooze(id, days)).reminders, None)
  {}

  // ---- Silence ----

  /** Gone, past being due, or mailed already. */
  predicate Silent(s: World, id: nat) {
    id in s.created
    && (id in s.reminders ==> Rank(s.reminders[id].status) == 2 || s.reminders[id].digestSentAt.Some?)
  }

  /** No worker is about to mail it either. */
  ghost predicate Quiet(s: World, id: nat) {
    Silent(s, id) && forall w: nat | w in s.workers && s.workers[w].Mailing? :: id !in s.workers[w].ids
  }

  ghost predicate NotMailed(log: seq<Act>, since: nat, id: nat) {
    forall k | since <= k < |log| :: log[k].Mailed? ==> id !in log[k].ids
  }

  lemma SilentStep(s: World, e: Event, id: nat)
    requires s.reminders.Keys <= s.created && Silent(s, id)
    ensures Silent(Step(s, e), id)
  {
    CreatedStep(s, e);
    if id in s.reminders { StatusStep(s, e, id); }
  }

  lemma LogGrows(s: World, e: Event)
    ensures |Step(s, e).log| >= |s.log| && Step(s, e).log[..|s.log|] == s.log
  {}

  lemma QuietStep(s: World, e: Event, id: nat)
    requires s.reminders.Keys <= s.created && Quiet(s, id)
    ensures Quiet(Step(s, e), id)
  {
    SilentStep(s, e, id);
    if e.Collect? { assert forall user, now :: id !in MailableIds(s.reminders, user, now); }
  }

  lemma QuietLog(s: World, e: Event, id: nat)
    requires Quiet(s, id)
    ensures NotMailed(Step(s, e).log, |s.log|, id)
  {}

  /** Once snoozed, resolved, dismissed or mailed, a reminder is never picked for a digest
      again: not even after a later snooze, against the comment that the next digest treats a
      snoozed one as new. */
  lemma {:induction false} QuietForever(s: World, events: seq<Event>, id: nat)
    requires s.reminders.Keys <= s.created && Quiet(s, id)
    ensures Quiet(Run(s, events), id)
    ensures |Run(s, events).log| >= |s.log| && Run(s, events).log[..|s.log|] == s.log
    ensures NotMailed(Run(s, events).log, |s.log|, id)
    decreases events
  {
    if events != [] {
      var t := Step(s, events[0]);
      CreatedStep(s, events[0]);
      LogGrows(s, events[0]);
      QuietStep(s, events[0], id);
      QuietLog(s, events[0], id);
      QuietForever(t, events[1..], id);
      var end := Run(s, events).log;
      forall k | |s.log| <= k < |end| ensures end[k].Mailed? ==> id !in end[k].ids {
        if k < |t.log| { assert end[k] == end[..|t.log|][k]; }
      }
      assert end[..|s.log|] == end[..|t.log|][..|s.log|];
    }
  }

  /** A mail that is marked was the last one about its reminders, unless another digest had
      already picked them. */
  lemma MarkedIsLast(s: World, w: nat, id: nat, events: seq<Event>)
    requires s.reminders.Keys <= s.created && id in s.reminders
    requires w in s.workers && s.workers[w].Marking? && s.workers[w].users != [] && id in s.workers[w].ids
    requires forall other: nat | other in s.workers && s.workers[other].Mailing? :: id !in s.workers[other].ids
    ensures NotMailed(Run(Step(s, Mark(w, false)), events).log, |s.log|, id)
  {
    CreatedStep(s, Mark(w, false));
    QuietForever(Step(s, Mark(w, false)), events, id);
  }

  /** A snoozed reminder is never shown as due again by a check. */
  lemma {:induction false} NeverTriggeredAgain(s: World, events: seq<Event>, id: nat)
    requires s.reminders.Keys <= s.created && id in s.created
    requires id in s.reminders ==> Rank(s.reminders[id].status) == 2
    ensures var t := Run(s, events); id in t.reminders ==> t.reminders[id].status !in {PENDING, TRIGGERED}
    decreases events
  {
    if events != [] {
      CreatedStep(s, events[0]);
      if id in s.reminders { StatusStep(s, events[0], id); }
      NeverTriggeredAgain(Step(s, events[0]), events[1..], id);
    }
  }

  // ---- Who is mailed, and about what ----

  /** Worker `w` holds a digest of `ids` for `user`, not sent yet. */
  predicate Holds(s: World, w: nat, user: nat, ids: seq<nat>) {
    w in s.workers && s.workers[w].Mailing? && s.workers[w].users != [] && s.workers[w].users[0] == user && s.workers[w].ids == ids
  }

  /** The query that picks a digest: for a user who has opted in and has an address, the first
      ten of what is due, triggered, past its snooze and not mailed yet. */
  predicate Picks(s: World, e: Event, w: nat, user: nat, ids: seq<nat>) {
    && e == Collect(w, ids, false) && user in s.optedIn && user in s.addresses && ids != []
    && w in s.workers && s.workers[w].Notifying?
    && Batch(s.reminders, MailableIds(s.reminders, user, s.workers[w].now), MAX_ITEMS, ids)
  }

  lemma StepHolds(s: World, e: Event, w: nat, user: nat, ids: seq<nat>)
    requires Holds(Step(s, e), w, user, ids)
    ensures Holds(s, w, user, ids) || Picks(s, e, w, user, ids)
  {
    if ByOthers(e, w) { OthersStep(s, e, w); }
  }

  lemma StepMails(s: World, e: Event)
    ensures forall k | |s.log| <= k < |Step(s, e).log| && Step(s, e).log[k].Mailed? ::
      var act := Step(s, e).log[k]; e.Send? && e.worker == act.worker && Holds(s, act.worker, act.user, act.ids)
  {}

  /** A digest in a worker's hands was picked by one event of the run. */
  lemma {:induction false} HeldWasPicked(s: World, events: seq<Event>, w: nat, user: nat, ids: seq<nat>) returns (j: nat)
    requires !Holds(s, w, user, ids) && Holds(Run(s, events), w, user, ids)
    ensures j < |events| && Picks(Run(s, events[..j]), events[j], w, user, ids)
    decreases events
  {
    var t := Step(s, events[0]);
    if Holds(t, w, user, ids) {
      StepHolds(s, events[0], w, user, ids);
      j := 0;
      assert events[..0] == [];
    } else {
      var i := HeldWasPicked(t, events[1..], w, user, ids);
      j := i + 1;
      assert events[..j][1..] == events[1..][..i] && events[..j][0] == events[0];
    }
  }

  /** Every mail of a run was sent by one event from a digest in hand. */
  lemma {:induction false} MailedWasHeld(s: World, events: seq<Event>, k: nat) returns (j: nat)
    requires |s.log| <= k < |Run(s, events).log| && Run(s, events).log[k].Mailed?
    ensures j < |events|
    ensures var act := Run(s, events).log[k]; Holds(Run(s, events[..j]), act.worker, act.user, act.ids)
    decreases events
  {
    var t := Step(s, events[0]);
    StepMails(s, events[0]);
    LogsOnly(t, events[1..]);
    LogGrows(s, events[0]);
    if k < |t.log| {
      assert Run(s, events).log[k] == Run(s, events).log[..|t.log|][k] == t.log[k];
      j := 0;
      assert events[..0] == [];
    } else {
      var i := MailedWasHeld(t, events[1..], k);
      j := i + 1;
      assert events[..j][1..] == events[1..][..i] && events[..j][0] == events[0];
    }
  }

  lemma {:induction false} LogsOnly(s: World, events: seq<Event>)
    ensures |Run(s, events).log| >= |s.log| && Run(s, events).log[..|s.log|] == s.log
    decreases events
  {
    if events != [] {
      var t := Step(s, events[0]);
      LogGrows(s, events[0]);
      LogsOnly(t, events[1..]);
      assert Run(s, events).log[..|s.log|] == Run(s, events).log[..|t.log|][..|s.log|];
    }
  }

  /** From a state in which nobody is about to mail: every mail goes to a user who, when it was
      picked, had opted in and had an address, and is about reminders that were his, triggered,
      due, past their snooze and not mailed before. */
  lemma {:induction false} MailsAreWanted(s: World, events: seq<Event>, k: nat) returns (j: nat)
    requires forall w: nat | w in s.workers :: !s.workers[w].Mailing?
    requires |s.log| <= k < |Run(s, events).log| && Run(s, events).log[k].Mailed?
    ensures j < |events|
    ensures var u, act := Run(s, events[..j]), Run(s, events).log[k];
      && act.user in u.optedIn && act.user in u.addresses && act.ids != [] && |act.ids| <= MAX_ITEMS
      && act.worker in u.workers && u.workers[act.worker].Notifying?
      && forall id | id in act.ids ::
           var now := u.workers[act.worker].now;
           id in u.reminders && u.reminders[id].user == act.user && u.reminders[id].status == TRIGGERED
           && u.reminders[id].dueAt <= now && u.reminders[id].digestSentAt.None?
           && (u.reminders[id].snoozedUntil.None? || u.reminders[id].snoozedUntil.value <= now)
  {
    var act := Run(s, events).log[k];
    var i := MailedWasHeld(s, events, k);
    j := HeldWasPicked(s, events[..i], act.worker, act.user, act.ids);
    assert events[..i][..j] == events[..j] && events[..i][j] == events[j];
    var u := Run(s, events[..j]);
    forall id | id in act.ids ensures id in u.reminders && Mailable(u.reminders[id], act.user, u.workers[act.worker].now) {
      assert id in MailableIds(u.reminders, act.user, u.workers[act.worker].now);
    }
  }

  // ---- A check does not nag ----

  /** Removed, or past being due. */
  predicate Settled(s: World, id: nat) {
    id in s.created && (id in s.reminders ==> Rank(s.reminders[id].status) == 2)
  }

  predicate Concerns(act: Act, w: nat, id: nat) {
    act.worker == w && (if act.Triggered? then act.id == id else id in act.ids)
  }

  /** The reminder's own facts, which nothing changes. */
  predicate SameReminder(a: Reminder, b: Reminder) {
    a.thread == b.thread && a.createdAt == b.createdAt
  }

  ghost predicate Awaits(todo: seq<Snap>, id: nat, row: Reminder) {
    && (exists k :: 0 <= k < |todo| && todo[k].id == id)
    && SnapsAgree(todo, id, row)
  }

  ghost predicate SnapsAgree(todo: seq<Snap>, id: nat, row: Reminder) {
    forall k | 0 <= k < |todo| && todo[k].id == id :: SameReminder(todo[k].row, row)
  }

  /** Where check `w` stands with a reminder that has been answered by message `m`. */
  ghost predicate OnTrack(s: World, w: nat, id: nat, row: Reminder, m: nat) {
    && s.reminders.Keys <= s.created && id in s.created
    && m in s.messages && Answers(s.messages[m], row)
    && (w in s.workers ==>
          match s.workers[w]
          case Examining(_, todo, _) => SnapsAgree(todo, id, row) && (Settled(s, id) || Awaits(todo, id, row))
          case Looked(_, todo, _, answered) =>
            todo != [] && SnapsAgree(todo, id, row)
            && (todo[0].id == id ==> answered)
            && (Settled(s, id) || Awaits(todo, id, row))
          case Notifying(_, _) => Settled(s, id)
          case Mailing(_, _, ids) => Settled(s, id) && id !in ids
          case Marking(_, _, ids) => Settled(s, id))
  }

  /** Check `w` starts once, its queries succeed, and the answer stays where it is. */
  predicate Undisturbed(e: Event, w: nat, m: nat) {
    && !(e.StartCheck? && e.worker == w)
    && !((e.Look? || e.Settle? || e.Collect?) && e.worker == w && e.fails)
    && !(e.Vanish? && e.message == m)
  }

  lemma AwaitsRest(todo: seq<Snap>, id: nat, row: Reminder)
    requires todo != [] && Awaits(todo, id, row) && todo[0].id != id
    ensures Awaits(todo[1..], id, row)
  {
    var k :| 0 <= k < |todo| && todo[k].id == id;
    assert todo[1..][k - 1].id == id;
    AgreesRest(todo, id, row);
  }

  lemma AgreesRest(todo: seq<Snap>, id: nat, row: Reminder)
    requires todo != [] && SnapsAgree(todo, id, row)
    ensures SnapsAgree(todo[1..], id, row)
  {
    forall k | 0 <= k < |todo[1..]| && todo[1..][k].id == id ensures SameReminder(todo[1..][k].row, row) {
      assert todo[k + 1].id == id;
    }
  }

  lemma SettledStep(s: World, e: Event, id: nat)
    requires s.reminders.Keys <= s.created && Settled(s, id)
    ensures Settled(Step(s, e), id)
  {
    CreatedStep(s, e);
    if id in s.reminders { StatusStep(s, e, id); }
  }

  /** The check's own verdict on whatever it looked at. */
  lemma VerdictOnTrack(s: World, w: nat, id: nat, row: Reminder, m: nat)
    requires OnTrack(s, w, id, row, m) && w in s.workers && s.workers[w].Looked?
    ensures OnTrack(Step(s, Settle(w, false)), w, id, row, m)
    ensures var t := Step(s, Settle(w, false));
      |t.log| >= |s.log| && forall k | |s.log| <= k < |t.log| :: !Concerns(t.log[k], w, id)
  {
    var t := Step(s, Settle(w, false));
    var todo := s.workers[w].todo;
    AgreesRest(todo, id, row);
    CreatedStep(s, Settle(w, false));
    if Settled(s, id) {
      SettledStep(s, Settle(w, false), id);
    } else if todo[0].id == id {
      assert Settled(t, id);
    } else {
      AwaitsRest(todo, id, row);
    }
    assert todo[1..] == [] ==> Settled(t, id);
  }

  lemma LookOnTrack(s: World, w: nat, id: nat, row: Reminder, m: nat)
    requires OnTrack(s, w, id, row, m) && w in s.workers && s.workers[w].Examining?
    ensures OnTrack(Step(s, Look(w, false)), w, id, row, m)
  {
    var todo := s.workers[w].todo;
    if todo != [] && todo[0].id == id {
      assert SameReminder(todo[0].row, row);
      assert Answers(s.messages[m], todo[0].row);
    }
  }

  /** The digest half of the check: a settled reminder is never chosen. */
  lemma DigestOnTrack(s: World, e: Event, w: nat, id: nat, row: Reminder, m: nat)
    requires OnTrack(s, w, id, row, m) && Undisturbed(e, w, m)
    requires (e.Collect? || e.Send? || e.Mark? || e.Crash?) && e.worker == w
    ensures OnTrack(Step(s, e), w, id, row, m)
  {
    CreatedStep(s, e);
    if Settled(s, id) {
      SettledStep(s, e, id);
      assert forall user, now :: id !in MailableIds(s.reminders, user, now);
    }
  }

  lemma OthersOnTrack(s: World, e: Event, w: nat, id: nat, row: Reminder, m: nat)
    requires OnTrack(s, w, id, row, m) && Undisturbed(e, w, m) && ByOthers(e, w)
    ensures OnTrack(Step(s, e), w, id, row, m)
  {
    CreatedStep(s, e);
    OthersStep(s, e, w);
    if Settled(s, id) { SettledStep(s, e, id); }
  }

  lemma LogStep(s: World, e: Event, w: nat, id: nat, row: Reminder, m: nat)
    requires OnTrack(s, w, id, row, m) && !(e.Settle? && e.worker == w)
    ensures var t := Step(s, e);
      |t.log| >= |s.log| && (forall k | |s.log| <= k < |t.log| :: !Concerns(t.log[k], w, id)) && t.log[..|s.log|] == s.log
  {}

  lemma OnTrackStep(s: World, e: Event, w: nat, id: nat, row: Reminder, m: nat)
    requires OnTrack(s, w, id, row, m) && Undisturbed(e, w, m)
    ensures OnTrack(Step(s, e), w, id, row, m)
    ensures var t := Step(s, e);
      |t.log| >= |s.log| && (forall k | |s.log| <= k < |t.log| :: !Concerns(t.log[k], w, id)) && t.log[..|s.log|] == s.log
  {
    if e.Settle? && e.worker == w {
      if w in s.workers && s.workers[w].Looked? { VerdictOnTrack(s, w, id, row, m); }
    } else {
      LogStep(s, e, w, id, row, m);
      if ByOthers(e, w) {
        OthersOnTrack(s, e, w, id, row, m);
      } else if e.Look? {
        if w in s.workers && s.workers[w].Examining? { LookOnTrack(s, w, id, row, m); }
      } else {
        DigestOnTrack(s, e, w, id, row, m);
      }
    }
  }

  lemma {:induction false} OnTrackRun(s: World, events: seq<Event>, w: nat, id: nat, row: Reminder, m: nat)
    requires OnTrack(s, w, id, row, m) && forall e | e in events :: Undisturbed(e, w, m)
    ensures var t := Run(s, events);
      && OnTrack(t, w, id, row, m) && |t.log| >= |s.log| && t.log[..|s.log|] == s.log
      && (forall k | |s.log| <= k < |t.log| :: !Concerns(t.log[k], w, id))
    decreases events
  {
    if events != [] {
      assert Undisturbed(events[0], w, m) && forall e | e in events[1..] :: e in events;
      OnTrackStep(s, events[0], w, id, row, m);
      var t := Step(s, events[0]);
      OnTrackRun(t, events[1..], w, id, row, m);
      var end := Run(s, events).log;
      forall k | |s.log| <= k < |end| ensures !Concerns(end[k], w, id) {
        if k < |t.log| { assert end[k] == end[..|t.log|][k]; }
      }
      assert end[..|s.log|] == end[..|t.log|][..|s.log|];
    }
  }

  /** A check whose queries succeed neither triggers nor mails a reminder whose answer was
      stored when it began, whatever else goes on, if the reminder is in its batch or closed. */
  lemma {:induction false} ChecksDoNotNag(
      s: World, w: nat, only: Option<nat>, ids: seq<nat>, events: seq<Event>, id: nat, m: nat)
    requires s.reminders.Keys <= s.created && w !in s.workers && id in s.reminders
    requires Batch(s.reminders, OpenIds(s.reminders, only), CHECK_BATCH, ids)
    requires id in ids || !Open(s.reminders[id].status)
    requires m in s.messages && Answers(s.messages[m], s.reminders[id])
    requires forall e | e in events :: Undisturbed(e, w, m)
    ensures var t := Run(Step(s, StartCheck(w, only, ids)), events);
      && |t.log| >= |s.log| && (forall k | |s.log| <= k < |t.log| :: !Concerns(t.log[k], w, id))
      && (w in t.workers && !t.workers[w].Examining? && !t.workers[w].Looked? ==> Settled(t, id))
  {
    var row := s.reminders[id];
    var t := Step(s, StartCheck(w, only, ids));
    var todo := Snaps(s.reminders, ids);
    assert SnapsAgree(todo, id, row);
    if id in ids {
      var k :| 0 <= k < |ids| && ids[k] == id;
      assert todo[k].id == id;
    }
    assert OnTrack(t, w, id, row, m);
    OnTrackRun(t, events, w, id, row, m);
  }

  /** So with at most 500 open reminders every reminder of the check is safe. */
  lemma SmallChecksDoNotNag(
      s: World, w: nat, only: Option<nat>, ids: seq<nat>, events: seq<Event>, id: nat, m: nat)
    requires s.reminders.Keys <= s.created && w !in s.workers && id in s.reminders
    requires Batch(s.reminders, OpenIds(s.reminders, only), CHECK_BATCH, ids)
    requires |OpenIds(s.reminders, only)| <= CHECK_BATCH
    requires only.Some? ==> s.reminders[id].user == only.value
    requires m in s.messages && Answers(s.messages[m], s.reminders[id])
    requires forall e | e in events :: Undisturbed(e, w, m)
    ensures var t := Run(Step(s, StartCheck(w, only, ids)), events);
      && |t.log| >= |s.log| && (forall k | |s.log| <= k < |t.log| :: !Concerns(t.log[k], w, id))
      && (w in t.workers && !t.workers[w].Examining? && !t.workers[w].Looked? ==> Settled(t, id))
  {
    BatchIsAll(s.reminders, OpenIds(s.reminders, only), CHECK_BATCH, ids);
    if Open(s.reminders[id].status) { assert id in OpenIds(s.reminders, only); }
    ChecksDoNotNag(s, w, only, ids, events, id, m);
  }

  // ---- Runs ----

  lemma RunOne(s: World, e: Event)
    ensures Run(s, [e]) == Step(s, e)
  {
    assert [e][1..] == [];
  }

  /** Traces grow at the end. */
  function Extend(s: World, trace: seq<Event>, more: seq<Event>): (longer: seq<Event>)
    ensures longer == trace + more && Run(s, longer) == Run(Run(s, trace), more)
  {
    RunConcat(s, trace, more);
    trace + more
  }

  function ExtendOne(s: World, trace: seq<Event>, e: Event): (longer: seq<Event>)
    ensures longer == trace + [e] && Run(s, longer) == Step(Run(s, trace), e)
  {
    RunConcat(s, trace, [e]);
    RunOne(Run(s, trace), e);
    trace + [e]
  }

  function Rounds(w: nat, n: nat): seq<Event> {
    if n == 0 then [] else [Look(w, false), Settle(w, false)] + Rounds(w, n - 1)
  }

  // ---- What one undisturbed check does ----

  /** A reminder after a check: closed when answered, shown as due when its time has come. */
  function Examined(messages: map<nat, Message>, now: int, r: Reminder): Reminder {
    if !Open(r.status) then r
    else if Answered(messages, r) then r.(status := RESOLVED)
    else if r.status == PENDING && r.dueAt <= now then r.(status := TRIGGERED)
    else r
  }

  function ExaminedAll(s: World, now: int, ids: set<nat>): map<nat, Reminder> {
    map id | id in s.reminders :: if id in ids then Examined(s.messages, now, s.reminders[id]) else s.reminders[id]
  }

  /** The users a row in the batch brings to the digest: it is due and nobody answered. */
  predicate TouchesUser(messages: map<nat, Message>, now: int, r: Reminder, user: nat) {
    r.user == user && !Answered(messages, r) && (r.status == TRIGGERED || (r.status == PENDING && r.dueAt <= now))
  }

  lemma {:induction false} OneExamined(s: World, w: nat, now: int, todo: seq<Snap>, touched: seq<nat>)
      returns (t: World, more: seq<nat>)
    requires w in s.workers && s.workers[w] == Examining(now, todo, touched) && todo != []
    requires todo[0].id in s.reminders && s.reminders[todo[0].id] == todo[0].row && Open(todo[0].row.status)
    ensures t == Run(s, [Look(w, false), Settle(w, false)])
    ensures t.reminders == s.reminders[todo[0].id := Examined(s.messages, now, todo[0].row)]
    ensures t == s.(reminders := t.reminders, log := t.log, workers := Put(s, w, Next(now, todo[1..], more)).workers)
    ensures forall user | user in touched || TouchesUser(s.messages, now, todo[0].row, user) :: user in more
    ensures t.log == s.log || (t.log == s.log + [Triggered(w, todo[0].id)] && todo[0].row.status == PENDING)
  {
    more := VerdictTouched(s.reminders, Looked(now, todo, touched, Answered(s.messages, todo[0].row)), false);
    var looked := ExtendOne(s, [], Look(w, false));
    var pc := Looked(now, todo, touched, Answered(s.messages, todo[0].row));
    assert Run(s, looked) == s.(workers := s.workers[w := pc]);
    var settled := ExtendOne(s, looked, Settle(w, false));
    assert settled == [Look(w, false), Settle(w, false)];
    t := Run(s, settled);
  }

  /** The head done, the rest is what remains to be done. */
  lemma ExaminedStep(s: World, t: World, now: int, ids: seq<nat>)
    requires ids != [] && Distinct(ids) && ids[0] in s.reminders && t.messages == s.messages
    requires t.reminders == s.reminders[ids[0] := Examined(s.messages, now, s.reminders[ids[0]])]
    ensures ExaminedAll(t, now, SetOf(ids[1..])) == ExaminedAll(s, now, SetOf(ids))
  {
    assert SetOf(ids) == {ids[0]} + SetOf(ids[1..]);
    assert ids[0] !in SetOf(ids[1..]);
  }

  /** Distinct open rows, as a check takes them up. */
  predicate OpenRows(reminders: map<nat, Reminder>, ids: seq<nat>) {
    Distinct(ids) && forall id | id in ids :: id in reminders && Open(reminders[id].status)
  }

  lemma SnapsTail(s: World, t: World, ids: seq<nat>)
    requires ids != [] && OpenRows(s.reminders, ids)
    requires t.reminders.Keys == s.reminders.Keys && forall id: nat | id in s.reminders && id != ids[0] :: t.reminders[id] == s.reminders[id]
    ensures OpenRows(t.reminders, ids[1..])
    ensures Snaps(t.reminders, ids[1..]) == Snaps(s.reminders, ids)[1..]
  {
    var rest := ids[1..];
    forall i | 0 <= i < |rest| ensures rest[i] in ids && rest[i] != ids[0] { assert rest[i] == ids[i + 1]; }
  }

  lemma NothingLeft(t: World, now: int, ids: seq<nat>)
    requires |ids| == 1
    ensures ExaminedAll(t, now, SetOf(ids[1..])) == t.reminders
  {
    assert SetOf(ids[1..]) == {};
  }

  /** Row by row, each looked at in the state the query saw it in. */
  lemma {:induction false} AllExamined(s: World, w: nat, now: int, ids: seq<nat>, touched: seq<nat>)
    requires ids != [] && OpenRows(s.reminders, ids)
    requires w in s.workers && s.workers[w] == Examining(now, Snaps(s.reminders, ids), touched)
    ensures Run(s, Rounds(w, |ids|)).reminders == ExaminedAll(s, now, SetOf(ids))
    decreases ids
  {
    var todo := Snaps(s.reminders, ids);
    assert ids[0] in ids;
    var t, more := OneExamined(s, w, now, todo, touched);
    RunConcat(s, [Look(w, false), Settle(w, false)], Rounds(w, |ids| - 1));
    ExaminedStep(s, t, now, ids);
    if |ids| > 1 {
      SnapsTail(s, t, ids);
      AllExamined(t, w, now, ids[1..], more);
    } else {
      NothingLeft(t, now, ids);
    }
  }

  lemma ClosedStay(s: World, now: int)
    ensures ExaminedAll(s, now, OpenIds(s.reminders, None)) == ExaminedAll(s, now, s.reminders.Keys)
    ensures OpenIds(s.reminders, None) == {} ==> ExaminedAll(s, now, s.reminders.Keys) == s.reminders
  {
    forall id: nat | id in s.reminders && id !in OpenIds(s.reminders, None)
      ensures Examined(s.messages, now, s.reminders[id]) == s.reminders[id] {}
  }

  /** With nothing else going on and at most 500 open reminders, a check closes exactly the
      answered ones, triggers exactly the unanswered ones that came due, and leaves the rest. */
  lemma UndisturbedCheck(s: World, w: nat, ids: seq<nat>)
    requires w !in s.workers && Batch(s.reminders, OpenIds(s.reminders, None), CHECK_BATCH, ids)
    requires |OpenIds(s.reminders, None)| <= CHECK_BATCH
    ensures Run(s, [StartCheck(w, None, ids)] + Rounds(w, |ids|)).reminders == ExaminedAll(s, s.clock, s.reminders.Keys)
  {
    RunOne(s, StartCheck(w, None, ids));
    RunConcat(s, [StartCheck(w, None, ids)], Rounds(w, |ids|));
    BatchIsAll(s.reminders, OpenIds(s.reminders, None), CHECK_BATCH, ids);
    assert SetOf(ids) == OpenIds(s.reminders, None);
    ClosedStay(s, s.clock);
    if ids != [] { CheckedAll(s, w, ids); }
  }

  lemma CheckedAll(s: World, w: nat, ids: seq<nat>)
    requires w !in s.workers && ids != [] && Batch(s.reminders, OpenIds(s.reminders, None), CHECK_BATCH, ids)
    ensures Run(Step(s, StartCheck(w, None, ids)), Rounds(w, |ids|)).reminders == ExaminedAll(s, s.clock, SetOf(ids))
  {
    var t := Step(s, StartCheck(w, None, ids));
    assert t == s.(workers := s.workers[w := Examining(s.clock, Snaps(s.reminders, ids), [])]);
    AllExamined(t, w, s.clock, ids, []);
  }

  // ---- Outside the batch ----

  /** What a check adds to the log while it examines: rows of its batch that came due. */
  predicate OnlyTriggered(was: seq<Act>, log: seq<Act>, reminders: map<nat, Reminder>, ids: seq<nat>) {
    && |was| <= |log| && log[..|was|] == was
    && forall k | |was| <= k < |log| ::
         log[k].Triggered? && log[k].id in ids && log[k].id in reminders && reminders[log[k].id].status == PENDING
  }

  /** The user is touched already, or will be by a row still to be examined. */
  predicate WillTouch(s: World, now: int, ids: seq<nat>, touched: seq<nat>, user: nat) {
    user in touched || exists id | id in ids && id in s.reminders :: TouchesUser(s.messages, now, s.reminders[id], user)
  }

  lemma WillTouchRest(s: World, t: World, now: int, ids: seq<nat>, touched: seq<nat>, more: seq<nat>, user: nat)
    requires ids != [] && OpenRows(s.reminders, ids) && WillTouch(s, now, ids, touched, user)
    requires forall u | u in touched || TouchesUser(s.messages, now, s.reminders[ids[0]], u) :: u in more
    requires t.messages == s.messages && t.reminders.Keys == s.reminders.Keys
    requires forall id: nat | id in s.reminders && id != ids[0] :: t.reminders[id] == s.reminders[id]
    ensures WillTouch(t, now, ids[1..], more, user)
  {
    if user !in more {
      var id :| id in ids && id in s.reminders && TouchesUser(s.messages, now, s.reminders[id], user);
      var k :| 0 <= k < |ids| && ids[k] == id;
      assert ids[1..][k - 1] == id;
    }
  }

  lemma InRest(ids: seq<nat>, id: nat)
    requires ids != [] && Distinct(ids) && id in ids[1..]
    ensures id in ids && id != ids[0]
  {
    var i :| 0 <= i < |ids[1..]| && ids[1..][i] == id;
    assert ids[i + 1] == id;
  }

  lemma TriggeredRest(s: World, t: World, w: nat, end: seq<Act>, ids: seq<nat>)
    requires ids != [] && OpenRows(s.reminders, ids)
    requires t.log == s.log || (t.log == s.log + [Triggered(w, ids[0])] && s.reminders[ids[0]].status == PENDING)
    requires forall id: nat | id in t.reminders && id != ids[0] :: id in s.reminders && t.reminders[id] == s.reminders[id]
    requires OnlyTriggered(t.log, end, t.reminders, ids[1..])
    ensures OnlyTriggered(s.log, end, s.reminders, ids)
  {
    assert end[..|s.log|] == end[..|t.log|][..|s.log|];
    forall k | |s.log| <= k < |end|
      ensures end[k].Triggered? && end[k].id in ids && end[k].id in s.reminders && s.reminders[end[k].id].status == PENDING
    {
      if k < |t.log| {
        assert end[k] == end[..|t.log|][k];
      } else {
        InRest(ids, end[k].id);
      }
    }
  }

  /** When the batch has been examined, the digest loop begins with every touched user. */
  lemma {:induction false} RoundsReach(s: World, w: nat, now: int, ids: seq<nat>, touched: seq<nat>, user: nat)
      returns (t: World, users: seq<nat>)
    requires ids != [] && OpenRows(s.reminders, ids) && WillTouch(s, now, ids, touched, user)
    requires w in s.workers && s.workers[w] == Examining(now, Snaps(s.reminders, ids), touched)
    ensures t == Run(s, Rounds(w, |ids|)) && user in users
    ensures t == s.(reminders := t.reminders, log := t.log, workers := s.workers[w := Notifying(now, users)])
    ensures OnlyTriggered(s.log, t.log, s.reminders, ids)
    decreases ids
  {
    var todo := Snaps(s.reminders, ids);
    assert ids[0] in ids;
    var u, more := OneExamined(s, w, now, todo, touched);
    RunConcat(s, [Look(w, false), Settle(w, false)], Rounds(w, |ids| - 1));
    WillTouchRest(s, u, now, ids, touched, more, user);
    if |ids| > 1 {
      SnapsTail(s, u, ids);
      t, users := RoundsReach(u, w, now, ids[1..], more, user);
      assert t.workers == s.workers[w := Notifying(now, users)];
      TriggeredRest(s, u, w, t.log, ids);
    } else {
      assert ids[1..] == [] && todo[1..] == [];
      t, users := u, more;
    }
  }

  /** The digests of the users before it come to nothing. */
  function Skips(w: nat, n: nat): seq<Event> {
    if n == 0 then [] else [Collect(w, [], true)] + Skips(w, n - 1)
  }

  lemma {:induction false} SkipsRun(s: World, w: nat, now: int, users: seq<nat>, n: nat)
    requires w in s.workers && s.workers[w] == Notifying(now, users) && n < |users|
    ensures Run(s, Skips(w, n)) == s.(workers := s.workers[w := Notifying(now, users[n..])])
    decreases n
  {
    if n > 0 {
      var t := Step(s, Collect(w, [], true));
      assert t == s.(workers := s.workers[w := Notifying(now, users[1..])]);
      SkipsRun(t, w, now, users[1..], n - 1);
      assert users[1..][n - 1..] == users[n..];
      assert t.workers[w := Notifying(now, users[n..])] == s.workers[w := Notifying(now, users[n..])];
      assert Skips(w, n)[1..] == Skips(w, n - 1);
    } else {
      assert users[0..] == users && s.workers[w := Notifying(now, users)] == s.workers;
    }
  }

  lemma DigestMails(s: World, w: nat, now: int, users: seq<nat>, mail: seq<nat>)
    requires w in s.workers && s.workers[w] == Notifying(now, users) && users != []
    requires users[0] in s.optedIn && users[0] in s.addresses && mail != []
    requires Batch(s.reminders, MailableIds(s.reminders, users[0], now), MAX_ITEMS, mail)
    ensures Run(s, [Collect(w, mail, false), Send(w, Sent)]).log == s.log + [Mailed(w, users[0], mail)]
  {
    assert mail[0] in MailableIds(s.reminders, users[0], now);
    var t := Step(s, Collect(w, mail, false));
    assert t == s.(workers := s.workers[w := Mailing(now, users, mail)]);
    assert [Collect(w, mail, false), Send(w, Sent)] == [Collect(w, mail, false)] + [Send(w, Sent)];
    RunConcat(s, [Collect(w, mail, false)], [Send(w, Sent)]);
    RunOne(s, Collect(w, mail, false));
    RunOne(t, Send(w, Sent));
  }

  /** A check over `ids`, the digests of `skipped` users, then the one that sends `mail`. */
  function OverflowRun(w: nat, ids: seq<nat>, skipped: nat, mail: seq<nat>): seq<Event> {
    [StartCheck(w, None, ids)] + Rounds(w, |ids|) + (Skips(w, skipped) + [Collect(w, mail, false), Send(w, Sent)])
  }

  lemma {:induction false} CheckReachesDigest(s: World, w: nat, user: nat, ids: seq<nat>, row: nat)
      returns (t: World, users: seq<nat>)
    requires w !in s.workers && Batch(s.reminders, OpenIds(s.reminders, None), CHECK_BATCH, ids)
    requires row in ids && TouchesUser(s.messages, s.clock, s.reminders[row], user)
    ensures t == Run(s, [StartCheck(w, None, ids)] + Rounds(w, |ids|)) && user in users
    ensures t.reminders == ExaminedAll(s, s.clock, SetOf(ids)) && OnlyTriggered(s.log, t.log, s.reminders, ids)
    ensures w in t.workers && t.workers[w] == Notifying(s.clock, users)
    ensures t.optedIn == s.optedIn && t.addresses == s.addresses
  {
    var a := Step(s, StartCheck(w, None, ids));
    assert a == s.(workers := s.workers[w := Examining(s.clock, Snaps(s.reminders, ids), [])]);
    assert WillTouch(a, s.clock, ids, [], user);
    t, users := RoundsReach(a, w, s.clock, ids, [], user);
    CheckedAll(s, w, ids);
    RunOne(s, StartCheck(w, None, ids));
    RunConcat(s, [StartCheck(w, None, ids)], Rounds(w, |ids|));
  }

  /** Outside the batch nothing protects a reminder. Whatever the digest of a user is due to
      mail after a check of `ids`, the check mails, as soon as one row of its batch is due and
      unanswered and of that opted-in, addressed user; a reminder of the mail that was not in
      the batch was mailable all along and has not been looked at, answered or not. */
  lemma {:induction false} OverflowMails(
      s: World, w: nat, user: nat, ids: seq<nat>, row: nat, id: nat, mail: seq<nat>) returns (skipped: nat)
    requires w !in s.workers && Batch(s.reminders, OpenIds(s.reminders, None), CHECK_BATCH, ids)
    requires row in ids && TouchesUser(s.messages, s.clock, s.reminders[row], user)
    requires user in s.optedIn && user in s.addresses && id !in ids && id in mail
    requires var after := ExaminedAll(s, s.clock, SetOf(ids));
      Batch(after, MailableIds(after, user, s.clock), MAX_ITEMS, mail)
    ensures id in s.reminders && Mailable(s.reminders[id], user, s.clock)
    ensures var log := Run(s, OverflowRun(w, ids, skipped, mail)).log;
      log != [] && log[|log| - 1] == Mailed(w, user, mail)
      && OnlyTriggered(s.log, log[..|log| - 1], s.reminders, ids)
  {
    var t, users := CheckReachesDigest(s, w, user, ids, row);
    skipped :| 0 <= skipped < |users| && users[skipped] == user;
    SkipsRun(t, w, s.clock, users, skipped);
    var u := t.(workers := t.workers[w := Notifying(s.clock, users[skipped..])]);
    DigestMails(u, w, s.clock, users[skipped..], mail);
    RunConcat(t, Skips(w, skipped), [Collect(w, mail, false), Send(w, Sent)]);
    RunConcat(s, [StartCheck(w, None, ids)] + Rounds(w, |ids|), Skips(w, skipped) + [Collect(w, mail, false), Send(w, Sent)]);
    assert (t.log + [Mailed(w, user, mail)])[..|t.log|] == t.log;
  }

  function FirstIds(n: nat): set<nat> {
    if n == 0 then {} else FirstIds(n - 1) + {n - 1}
  }

  lemma FirstIdsNext(before: set<nat>, n: nat, ids: set<nat>)
    requires n > 0 && |before| == n - 1 && (forall id: nat :: id in before <==> id < n - 1) && ids == before + {n - 1}
    ensures |ids| == n && forall id: nat :: id in ids <==> id < n
  {}

  lemma {:induction false} FirstIdsAre(n: nat)
    ensures |FirstIds(n)| == n
    ensures forall id: nat :: id in FirstIds(n) <==> id < n
  {
    if n > 0 {
      FirstIdsAre(n - 1);
      FirstIdsNext(FirstIds(n - 1), n, FirstIds(n));
    }
  }

  function CrowdedRow(id: nat): Reminder {
    if id < 500 then Reminder(0, id, 0, 0, TRIGGERED, None, Some(0)) else Reminder(0, id, 1, 0, TRIGGERED, None, None)
  }

  /** 500 reminders due before and mailed, and one more, due later and answered. */
  function Crowded(): World {
    World(map id | id in FirstIds(501) :: CrowdedRow(id), FirstIds(501), map[0 := Message(500, false, 0)],
          {0}, {0}, map[], 1, [])
  }

  lemma FirstFiveHundred(ids: seq<nat>)
    requires ids == seq(500, i => i)
    ensures |ids| == 500 && Distinct(ids)
    ensures forall i | 0 <= i < |ids| :: ids[i] == i
    ensures forall id: nat :: id in ids <==> id < 500
  {
    forall id: nat | id < 500 ensures id in ids { assert ids[id] == id; }
  }

  lemma CrowdedBatch(ids: seq<nat>)
    requires ids == seq(500, i => i)
    ensures OpenIds(Crowded().reminders, None) == FirstIds(501)
    ensures Batch(Crowded().reminders, OpenIds(Crowded().reminders, None), CHECK_BATCH, ids)
  {
    FirstIdsAre(501);
    var rows := Crowded().reminders;
    assert OpenIds(rows, None) == FirstIds(501);
    forall id | id in ids ensures id < 500 && id in rows {}
    FirstFiveHundred(ids);
  }

  lemma CrowdedUnanswered(id: nat)
    requires id < 500
    ensures id in Crowded().reminders && Crowded().reminders[id] == CrowdedRow(id)
    ensures TouchesUser(Crowded().messages, 1, CrowdedRow(id), 0)
    ensures Examined(Crowded().messages, 1, CrowdedRow(id)) == CrowdedRow(id)
  {
    FirstIdsAre(501);
  }

  lemma CrowdedAfter(ids: seq<nat>)
    requires ids == seq(500, i => i)
    ensures ExaminedAll(Crowded(), 1, SetOf(ids)) == Crowded().reminders
  {
    FirstFiveHundred(ids);
    forall id | id in SetOf(ids) && id in Crowded().reminders
      ensures Examined(Crowded().messages, 1, Crowded().reminders[id]) == Crowded().reminders[id]
    {
      CrowdedUnanswered(id);
    }
  }

  lemma CrowdedMailable()
    ensures MailableIds(Crowded().reminders, 0, 1) == {500}
    ensures Batch(Crowded().reminders, {500}, MAX_ITEMS, [500])
  {
    var rows := Crowded().reminders;
    FirstIdsAre(501);
    forall id: nat | id in rows ensures Mailable(rows[id], 0, 1) <==> id == 500 {
      assert rows[id] == CrowdedRow(id);
    }
    assert 500 in rows;
  }

  lemma SomePending(was: seq<Act>, log: seq<Act>, reminders: map<nat, Reminder>, ids: seq<nat>)
    requires OnlyTriggered(was, log, reminders, ids) && |log| > |was|
    ensures exists x: nat :: x in reminders && reminders[x].status == PENDING
  {
    assert reminders[log[|was|].id].status == PENDING;
  }

  /** When no row was still pending, the mail is all the check adds to the log. */
  lemma OverflowOnlyMails(
      s: World, w: nat, user: nat, ids: seq<nat>, row: nat, id: nat, mail: seq<nat>) returns (skipped: nat)
    requires w !in s.workers && Batch(s.reminders, OpenIds(s.reminders, None), CHECK_BATCH, ids)
    requires row in ids && TouchesUser(s.messages, s.clock, s.reminders[row], user)
    requires user in s.optedIn && user in s.addresses && id !in ids && id in mail
    requires ExaminedAll(s, s.clock, SetOf(ids)) == s.reminders
    requires Batch(s.reminders, MailableIds(s.reminders, user, s.clock), MAX_ITEMS, mail)
    requires forall x: nat | x in s.reminders :: s.reminders[x].status != PENDING
    ensures Run(s, OverflowRun(w, ids, skipped, mail)).log == s.log + [Mailed(w, user, mail)]
  {
    skipped := OverflowMails(s, w, user, ids, row, id, mail);
    var log := Run(s, OverflowRun(w, ids, skipped, mail)).log;
    var before := log[..|log| - 1];
    if |before| > |s.log| { SomePending(s.log, before, s.reminders, ids); }
    assert log == before + [log[|log| - 1]] && before[..|s.log|] == before;
  }

  lemma CrowdedIsOpen()
    ensures |OpenIds(Crowded().reminders, None)| == CHECK_BATCH + 1
    ensures Answers(Crowded().messages[0], Crowded().reminders[500])
    ensures forall x: nat | x in Crowded().reminders :: Crowded().reminders[x].status == TRIGGERED
  {
    FirstIdsAre(501);
    CrowdedBatch(seq(500, i => i));
  }

  /** The 501st is never looked at, and its user is mailed about it although the answer was there. */
  lemma CrowdedCheckNags() returns (skipped: nat)
    ensures Answers(Crowded().messages[0], Crowded().reminders[500])
    ensures |OpenIds(Crowded().reminders, None)| == CHECK_BATCH + 1
    ensures Run(Crowded(), OverflowRun(1, seq(500, i => i), skipped, [500])).log == [Mailed(1, 0, [500])]
  {
    var ids: seq<nat> := seq(500, i => i);
    CrowdedIsOpen();
    CrowdedBatch(ids);
    CrowdedMailable();
    CrowdedAfter(ids);
    CrowdedUnanswered(0);
    FirstFiveHundred(ids);
    skipped := OverflowOnlyMails(Crowded(), 1, 0, ids, 0, 500, [500]);
  }

  // ---- The procedures ----

  predicate ByOthers(e: Event, me: nat) {
    match e
    case StartCheck(w, _, _) => w != me
    case Look(w, _) => w != me
    case Settle(w, _) => w != me
    case Collect(w, _, _) => w != me
    case Send(w, _) => w != me
    case Mark(w, _) => w != me
    case Crash(w) => w != me
    case _ => true
  }

  predicate AllByOthers(events: seq<Event>, me: nat) {
    forall e | e in events :: ByOthers(e, me)
  }

  predicate SameFor(s: World, t: World, me: nat) {
    (me in t.workers <==> me in s.workers) && (me in s.workers ==> t.workers[me] == s.workers[me])
  }

  lemma VerdictOfOthers(s: World, w: nat, pc: Pc, fails: bool, me: nat)
    requires pc.Looked? && pc.todo != [] && w != me
    ensures SameFor(s, Verdict(s, w, pc, fails), me)
  {}

  lemma OthersStep(s: World, e: Event, me: nat)
    requires ByOthers(e, me)
    ensures SameFor(s, Step(s, e), me)
  {
    match e
    case Settle(w, fails) =>
      if w in s.workers && s.workers[w].Looked? && s.workers[w].todo != [] {
        VerdictOfOthers(s, w, s.workers[w], fails, me);
      }
    case _ =>
  }

  lemma {:induction false} OthersLeaveMe(s: World, events: seq<Event>, me: nat)
    requires AllByOthers(events, me)
    ensures me in Run(s, events).workers <==> me in s.workers
    ensures me in s.workers ==> Run(s, events).workers[me] == s.workers[me]
    decreases events
  {
    if events != [] {
      assert ByOthers(events[0], me);
      OthersStep(s, events[0], me);
      assert forall e | e in events[1..] :: e in events;
      OthersLeaveMe(Step(s, events[0]), events[1..], me);
    }
  }

  /** Somebody is the earliest. */
  lemma EarliestExists(reminders: map<nat, Reminder>, ids: set<nat>) returns (earliest: nat)
    requires ids != {} && ids <= reminders.Keys
    ensures earliest in ids && forall id | id in ids :: reminders[earliest].dueAt <= reminders[id].dueAt
    decreases ids
  {
    earliest :| earliest in ids;
    var rest := ids - {earliest};
    assert forall id | id in ids :: id == earliest || id in rest;
    if rest != {} {
      var other := EarliestExists(reminders, rest);
      if reminders[other].dueAt < reminders[earliest].dueAt { earliest := other; }
    }
  }

  // ---- A whole check, digests included, with nothing else going on ----

  /** Nothing fails, every mail goes out and is reported, and nobody else acts. */
  ghost predicate Calm(fails: nat -> bool, deliveries: nat -> Delivery, gaps: nat -> seq<Event>) {
    forall k: nat :: !fails(k) && deliveries(k).Sent? && gaps(k) == []
  }

  /** The row has come due and nobody answered. */
  predicate ComesDue(messages: map<nat, Message>, now: int, r: Reminder) {
    r.status == PENDING && r.dueAt <= now && !Answered(messages, r)
  }

  /** The users whose digest is looked at, each once, as the rows come up. */
  function TouchedBy(s: World, now: int, ids: seq<nat>): (users: seq<nat>)
    requires forall id | id in ids :: id in s.reminders
    ensures forall user :: user in users <==> exists id | id in ids :: TouchesUser(s.messages, now, s.reminders[id], user)
    ensures Distinct(users)
  {
    if ids == [] then []
    else
      var front, last := ids[..|ids| - 1], ids[|ids| - 1];
      var before := TouchedBy(s, now, front);
      var user := s.reminders[last].user;
      assert ids == front + [last];
      if TouchesUser(s.messages, now, s.reminders[last], user) && user !in before then before + [user] else before
  }

  /** The rows shown as due, in the order they come up. */
  function TriggeredBy(s: World, w: nat, now: int, ids: seq<nat>): (acts: seq<Act>)
    requires forall id | id in ids :: id in s.reminders
    ensures forall act :: act in acts <==>
      act.Triggered? && act.worker == w && act.id in ids && ComesDue(s.messages, now, s.reminders[act.id])
  {
    if ids == [] then []
    else
      var front, last := ids[..|ids| - 1], ids[|ids| - 1];
      assert ids == front + [last];
      TriggeredBy(s, w, now, front)
      + if ComesDue(s.messages, now, s.reminders[last]) then [Triggered(w, last)] else []
  }

  predicate InMail(mails: seq<Act>, id: nat) {
    exists k :: 0 <= k < |mails| && mails[k].Mailed? && id in mails[k].ids
  }

  predicate HasMail(mails: seq<Act>, user: nat) {
    exists k :: 0 <= k < |mails| && mails[k].Mailed? && mails[k].user == user
  }

  /** The first ten of what a user who wants them and can be reached is due. */
  ghost predicate RightMail(s: World, w: nat, now: int, users: seq<nat>, act: Act) {
    && act.Mailed? && act.worker == w && act.user in users && act.user in s.optedIn && act.user in s.addresses && act.ids != []
    && Batch(s.reminders, MailableIds(s.reminders, act.user, now), MAX_ITEMS, act.ids)
  }

  /** One mail for each user who is to have one. */
  ghost predicate MailsAreRight(s: World, w: nat, now: int, users: seq<nat>, mails: seq<Act>) {
    && (forall k | 0 <= k < |mails| :: RightMail(s, w, now, users, mails[k]))
    && (forall j, k | 0 <= j < k < |mails| :: mails[j].user != mails[k].user)
    && (forall user | user in users && user in s.optedIn && user in s.addresses && MailableIds(s.reminders, user, now) != {} ::
          HasMail(mails, user))
  }

  /** What was mailed is marked, and nothing else is changed. */
  predicate Marked(was: map<nat, Reminder>, now: int, mails: seq<Act>, reminders: map<nat, Reminder>) {
    reminders.Keys == was.Keys
    && forall id | id in was :: reminders[id] == if InMail(mails, id) then was[id].(digestSentAt := Some(now)) else was[id]
  }

  /** The rows of the batch examined, and the digests of the touched users mailed and marked. */
  ghost predicate CheckDone(s: World, w: nat, ids: seq<nat>, mails: seq<Act>, t: World)
    requires forall id | id in ids :: id in s.reminders
  {
    var after := s.(reminders := ExaminedAll(s, s.clock, SetOf(ids)));
    && t.log == s.log + TriggeredBy(s, w, s.clock, ids) + mails
    && MailsAreRight(after, w, s.clock, TouchedBy(s, s.clock, ids), mails)
    && Marked(after.reminders, s.clock, mails, t.reminders)
  }

  lemma MailOfUser(s: World, w: nat, now: int, users: seq<nat>, mails: seq<Act>, id: nat, user: nat)
    requires MailsAreRight(s, w, now, users, mails) && InMail(mails, id) && id in s.reminders && s.reminders[id].user == user
    ensures user in users && HasMail(mails, user)
  {
    var k :| 0 <= k < |mails| && mails[k].Mailed? && id in mails[k].ids;
    assert RightMail(s, w, now, users, mails[k]);
    assert id in MailableIds(s.reminders, mails[k].user, now);
  }

  /** A user who has not been mailed has the rows he had. */
  lemma UntouchedUser(s: World, w: nat, now: int, users: seq<nat>, mails: seq<Act>, reminders: map<nat, Reminder>, user: nat)
    requires MailsAreRight(s, w, now, users, mails) && Marked(s.reminders, now, mails, reminders) && user !in users
    ensures MailableIds(reminders, user, now) == MailableIds(s.reminders, user, now)
    ensures forall id | id in MailableIds(s.reminders, user, now) :: reminders[id] == s.reminders[id]
  {
    forall id | id in s.reminders && s.reminders[id].user == user ensures reminders[id] == s.reminders[id] {
      if InMail(mails, id) { MailOfUser(s, w, now, users, mails, id, user); }
    }
    forall id | id in s.reminders ensures reminders[id].user == s.reminders[id].user {}
  }

  lemma SameBatch(was: map<nat, Reminder>, now: map<nat, Reminder>, matching: set<nat>, limit: nat, ids: seq<nat>)
    requires Batch(now, matching, limit, ids) && matching <= was.Keys
    requires forall id | id in matching :: id in now && now[id] == was[id]
    ensures Batch(was, matching, limit, ids)
  {
    forall i | 0 <= i < |ids| ensures now[ids[i]] == was[ids[i]] { assert ids[i] in ids; }
  }

  lemma UsersGrow(s: World, w: nat, now: int, users: seq<nat>, mails: seq<Act>, user: nat)
    requires MailsAreRight(s, w, now, users, mails)
    requires !(user in s.optedIn && user in s.addresses && MailableIds(s.reminders, user, now) != {})
    ensures MailsAreRight(s, w, now, users + [user], mails)
  {
    forall k | 0 <= k < |mails| ensures RightMail(s, w, now, users + [user], mails[k]) {
      assert RightMail(s, w, now, users, mails[k]);
    }
  }

  lemma MailsGrow(s: World, w: nat, now: int, users: seq<nat>, mails: seq<Act>, user: nat, ids: seq<nat>)
    requires MailsAreRight(s, w, now, users, mails) && user !in users
    requires user in s.optedIn && user in s.addresses && ids != []
    requires Batch(s.reminders, MailableIds(s.reminders, user, now), MAX_ITEMS, ids)
    ensures MailsAreRight(s, w, now, users + [user], mails + [Mailed(w, user, ids)])
  {
    var more, all := mails + [Mailed(w, user, ids)], users + [user];
    forall k | 0 <= k < |more| ensures RightMail(s, w, now, all, more[k]) {
      if k < |mails| { assert RightMail(s, w, now, users, mails[k]); }
    }
    forall other | other in all && other in s.optedIn && other in s.addresses && MailableIds(s.reminders, other, now) != {}
      ensures HasMail(more, other)
    {
      if other in users {
        var k :| 0 <= k < |mails| && mails[k].Mailed? && mails[k].user == other;
        assert more[k] == mails[k];
      } else {
        assert more[|mails|].user == other;
      }
    }
  }

  lemma MarksGrow(was: map<nat, Reminder>, now: int, mails: seq<Act>, reminders: map<nat, Reminder>, act: Act)
    requires Marked(was, now, mails, reminders) && act.Mailed?
    ensures Marked(was, now, mails + [act], MarkAll(reminders, act.ids, now))
  {
    var more := mails + [act];
    forall id | id in was ensures InMail(more, id) <==> InMail(mails, id) || id in act.ids {
      if id in act.ids { assert id in more[|mails|].ids; }
      if k :| 0 <= k < |mails| && mails[k].Mailed? && id in mails[k].ids { assert more[k] == mails[k]; }
    }
  }

  /** Read off the rows: what such a check leaves of one reminder. */
  lemma CheckDoneRow(s: World, w: nat, ids: seq<nat>, mails: seq<Act>, t: World, id: nat)
    requires (forall id | id in ids :: id in s.reminders && Open(s.reminders[id].status)) && CheckDone(s, w, ids, mails, t)
    requires id in s.reminders
    ensures id in t.reminders
    ensures var was, row := s.reminders[id], t.reminders[id];
      var answered := exists m | m in s.messages ::
        s.messages[m].thread == was.thread && !s.messages[m].outbound && s.messages[m].sentAt >= was.createdAt - 60_000;
      && (id in ids && answered ==> row.status == RESOLVED)
      && (id in ids && !answered && was.status == PENDING && was.dueAt <= s.clock ==> row.status == TRIGGERED)
      && (id !in ids || (!answered && !(was.status == PENDING && was.dueAt <= s.clock)) ==> row.status == was.status)
      && row.digestSentAt == (if InMail(mails, id) then Some(s.clock) else was.digestSentAt)
      && row == was.(status := row.status, digestSentAt := row.digestSentAt)
  {
    var was := s.reminders[id];
    assert Answered(s.messages, was) <==> exists m | m in s.messages ::
      s.messages[m].thread == was.thread && !s.messages[m].outbound && s.messages[m].sentAt >= was.createdAt - 60_000 by {
      assert forall m | m in s.messages :: Answers(s.messages[m], was) <==>
        s.messages[m].thread == was.thread && !s.messages[m].outbound && s.messages[m].sentAt >= was.createdAt - 60_000;
    }
  }

  /** And of one user: a mail exactly when he wants digests, can be reached, a row of his in the
      batch is due and unanswered, and there is something due that was not mailed before; it
      lists what is, up to ten. */
  lemma CheckDoneMail(s: World, w: nat, ids: seq<nat>, mails: seq<Act>, t: World, user: nat)
    requires (forall id | id in ids :: id in s.reminders) && CheckDone(s, w, ids, mails, t)
    ensures HasMail(mails, user) <==>
      && user in s.optedIn && user in s.addresses
      && (exists id | id in ids :: TouchesUser(s.messages, s.clock, s.reminders[id], user))
      && MailableIds(ExaminedAll(s, s.clock, SetOf(ids)), user, s.clock) != {}
    ensures forall k | 0 <= k < |mails| && mails[k].user == user :: |mails[k].ids| <= 10
    ensures var after := ExaminedAll(s, s.clock, SetOf(ids));
      forall k, id: nat | 0 <= k < |mails| && mails[k].user == user && id in after && after[id].user == user
        && after[id].status == TRIGGERED && after[id].dueAt <= s.clock && after[id].digestSentAt.None?
        && (after[id].snoozedUntil.None? || after[id].snoozedUntil.value <= s.clock) ::
        id in mails[k].ids || |mails[k].ids| == 10
  {
    var after := s.(reminders := ExaminedAll(s, s.clock, SetOf(ids)));
    var users := TouchedBy(s, s.clock, ids);
    forall k | 0 <= k < |mails| && mails[k].user == user
      ensures RightMail(after, w, s.clock, users, mails[k]) && MailableIds(after.reminders, user, s.clock) != {}
    {
      assert RightMail(after, w, s.clock, users, mails[k]);
      assert mails[k].ids[0] in mails[k].ids;
    }
    forall k, id: nat | 0 <= k < |mails| && mails[k].user == user && id in after.reminders
      && Mailable(after.reminders[id], user, s.clock)
      ensures id in mails[k].ids || |mails[k].ids| == 10
    {
      assert id in MailableIds(after.reminders, user, s.clock);
    }
  }

  predicate SameFacts(s: World, t: World) {
    t.created == s.created && t.messages == s.messages && t.optedIn == s.optedIn && t.addresses == s.addresses && t.clock == s.clock
  }

  /** The rows `done` have been examined, and nothing else has happened since `start`. */
  ghost predicate ExaminedSoFar(start: World, w: nat, done: seq<nat>, t: World, touched: seq<nat>) {
    && (forall id | id in done :: id in start.reminders)
    && t.reminders == ExaminedAll(start, start.clock, SetOf(done)) && SameFacts(start, t)
    && t.log == start.log + TriggeredBy(start, w, start.clock, done) && touched == TouchedBy(start, start.clock, done)
  }

  lemma StartsExamined(start: World, w: nat, t: World)
    requires SameFacts(start, t) && t.reminders == start.reminders && t.log == start.log
    ensures ExaminedSoFar(start, w, [], t, [])
  {
    assert SetOf([]) == {};
    assert start.log + [] == start.log;
  }

  lemma AsSeen(start: World, w: nat, ids: seq<nat>, n: nat, t: World, touched: seq<nat>)
    requires OpenRows(start.reminders, ids) && n < |ids| && ExaminedSoFar(start, w, ids[..n], t, touched)
    ensures ids[n] !in SetOf(ids[..n]) && ids[n] in t.reminders && t.reminders[ids[n]] == start.reminders[ids[n]]
    ensures Open(start.reminders[ids[n]].status)
  {}

  lemma RowsGrow(start: World, ids: seq<nat>, n: nat, rows: map<nat, Reminder>, more: map<nat, Reminder>)
    requires OpenRows(start.reminders, ids) && n < |ids| && rows == ExaminedAll(start, start.clock, SetOf(ids[..n]))
    requires more == rows[ids[n] := Examined(start.messages, start.clock, start.reminders[ids[n]])]
    ensures more == ExaminedAll(start, start.clock, SetOf(ids[..n + 1]))
  {
    assert ids[..n + 1] == ids[..n] + [ids[n]];
    assert SetOf(ids[..n + 1]) == SetOf(ids[..n]) + {ids[n]};
  }

  lemma ExaminedGrows(start: World, w: nat, ids: seq<nat>, n: nat, s: World, touched: seq<nat>, t: World, more: seq<nat>)
    requires OpenRows(start.reminders, ids) && n < |ids| && ExaminedSoFar(start, w, ids[..n], s, touched)
    requires var id, row := ids[n], start.reminders[ids[n]];
      && t.reminders == s.reminders[id := Examined(start.messages, start.clock, row)] && SameFacts(s, t)
      && t.log == (s.log + if ComesDue(start.messages, start.clock, row) then [Triggered(w, id)] else [])
      && more == (if TouchesUser(start.messages, start.clock, row, row.user) && row.user !in touched
                  then touched + [row.user] else touched)
    ensures ExaminedSoFar(start, w, ids[..n + 1], t, more)
  {
    assert ids[..n + 1][..n] == ids[..n] && ids[..n + 1] == ids[..n] + [ids[n]];
    RowsGrow(start, ids, n, s.reminders, t.reminders);
    var due: seq<Act> := if ComesDue(start.messages, start.clock, start.reminders[ids[n]]) then [Triggered(w, ids[n])] else [];
    assert start.log + TriggeredBy(start, w, start.clock, ids[..n]) + due
        == start.log + (TriggeredBy(start, w, start.clock, ids[..n]) + due);
  }

  /** The users `done` have had their digests, and nothing else has happened since `mid`. */
  ghost predicate MailedSoFar(mid: World, w: nat, now: int, done: seq<nat>, mails: seq<Act>, t: World) {
    && MailsAreRight(mid, w, now, done, mails) && Marked(mid.reminders, now, mails, t.reminders)
    && t.log == mid.log + mails && SameFacts(mid, t)
  }

  lemma StartsMailed(mid: World, w: nat, now: int)
    ensures MailedSoFar(mid, w, now, [], [], mid)
  {
    assert mid.log + [] == mid.log;
  }

  lemma MailedSkips(mid: World, w: nat, now: int, users: seq<nat>, j: nat, mails: seq<Act>, s: World, t: World)
    requires Distinct(users) && j < |users| && MailedSoFar(mid, w, now, users[..j], mails, s)
    requires users[j] !in s.optedIn || users[j] !in s.addresses || MailableIds(s.reminders, users[j], now) == {}
    requires t.reminders == s.reminders && t.log == s.log && SameFacts(s, t)
    ensures MailedSoFar(mid, w, now, users[..j + 1], mails, t)
  {
    assert users[j] !in users[..j] && users[..j + 1] == users[..j] + [users[j]];
    UntouchedUser(mid, w, now, users[..j], mails, s.reminders, users[j]);
    UsersGrow(mid, w, now, users[..j], mails, users[j]);
  }

  lemma MailedGrows(mid: World, w: nat, now: int, users: seq<nat>, j: nat, mails: seq<Act>, s: World, ids: seq<nat>, t: World)
    requires Distinct(users) && j < |users| && MailedSoFar(mid, w, now, users[..j], mails, s)
    requires users[j] in s.optedIn && users[j] in s.addresses && ids != []
    requires Batch(s.reminders, MailableIds(s.reminders, users[j], now), MAX_ITEMS, ids)
    requires t.reminders == MarkAll(s.reminders, ids, now) && t.log == s.log + [Mailed(w, users[j], ids)] && SameFacts(s, t)
    ensures MailedSoFar(mid, w, now, users[..j + 1], mails + [Mailed(w, users[j], ids)], t)
  {
    var user := users[j];
    assert user !in users[..j] && users[..j + 1] == users[..j] + [user];
    UntouchedUser(mid, w, now, users[..j], mails, s.reminders, user);
    SameBatch(mid.reminders, s.reminders, MailableIds(s.reminders, user, now), MAX_ITEMS, ids);
    MailsGrow(mid, w, now, users[..j], mails, user, ids);
    MarksGrow(mid.reminders, now, mails, s.reminders, Mailed(w, user, ids));
    assert mid.log + mails + [Mailed(w, user, ids)] == mid.log + (mails + [Mailed(w, user, ids)]);
  }

  /** One user more, mailed or not. */
  lemma MailedNext(mid: World, w: nat, now: int, users: seq<nat>, j: nat, mails: seq<Act>, s: World, ids: seq<nat>, t: World)
      returns (more: seq<Act>)
    requires Distinct(users) && j < |users| && MailedSoFar(mid, w, now, users[..j], mails, s) && SameFacts(s, t)
    requires
      if users[j] in s.optedIn && users[j] in s.addresses && MailableIds(s.reminders, users[j], now) != {} then
        ids != [] && Batch(s.reminders, MailableIds(s.reminders, users[j], now), MAX_ITEMS, ids)
        && t.reminders == MarkAll(s.reminders, ids, now) && t.log == s.log + [Mailed(w, users[j], ids)]
      else t.reminders == s.reminders && t.log == s.log
    ensures MailedSoFar(mid, w, now, users[..j + 1], more, t)
  {
    if users[j] in s.optedIn && users[j] in s.addresses && MailableIds(s.reminders, users[j], now) != {} {
      MailedGrows(mid, w, now, users, j, mails, s, ids, t);
      more := mails + [Mailed(w, users[j], ids)];
    } else {
      MailedSkips(mid, w, now, users, j, mails, s, t);
      more := mails;
    }
  }

  lemma SameStart(start: World, begun: World, w: nat, ids: seq<nat>, mid: World, users: seq<nat>)
    requires SameFacts(start, begun) && begun.reminders == start.reminders && begun.log == start.log
    requires ExaminedSoFar(begun, w, ids, mid, users)
    ensures ExaminedSoFar(start, w, ids, mid, users) && Distinct(users)
  {
    SameTouched(start, begun, start.clock, ids);
    SameTriggered(start, begun, w, start.clock, ids);
  }

  lemma {:induction false} SameTouched(s: World, t: World, now: int, ids: seq<nat>)
    requires t.reminders == s.reminders && t.messages == s.messages && forall id | id in ids :: id in s.reminders
    ensures TouchedBy(t, now, ids) == TouchedBy(s, now, ids)
  {
    if ids != [] {
      assert forall id | id in ids[..|ids| - 1] :: id in ids;
      SameTouched(s, t, now, ids[..|ids| - 1]);
    }
  }

  lemma {:induction false} SameTriggered(s: World, t: World, w: nat, now: int, ids: seq<nat>)
    requires t.reminders == s.reminders && t.messages == s.messages && forall id | id in ids :: id in s.reminders
    ensures TriggeredBy(t, w, now, ids) == TriggeredBy(s, w, now, ids)
  {
    if ids != [] {
      assert forall id | id in ids[..|ids| - 1] :: id in ids;
      SameTriggered(s, t, w, now, ids[..|ids| - 1]);
    }
  }

  lemma BothHalves(start: World, w: nat, ids: seq<nat>, mid: World, users: seq<nat>, mails: seq<Act>, t: World)
    requires ExaminedSoFar(start, w, ids, mid, users) && MailedSoFar(mid, w, start.clock, users, mails, t)
    ensures CheckDone(start, w, ids, mails, t)
  {
    var after := start.(reminders := ExaminedAll(start, start.clock, SetOf(ids)));
    forall k | 0 <= k < |mails| ensures RightMail(after, w, start.clock, users, mails[k]) {
      assert RightMail(mid, w, start.clock, users, mails[k]);
    }
  }

  /** The tables, the workers on them, and what they did. */
  class Tables {
    var reminders: map<nat, Reminder>
    var created: set<nat>
    var messages: map<nat, Message>
    var optedIn: set<nat>
    var addresses: set<nat>
    var workers: map<nat, Pc>
    var clock: int
    var log: seq<Act>

    function State(): World
      reads this
    {
      World(reminders, created, messages, optedIn, addresses, workers, clock, log)
    }

    /** The users a worker has to notify, as far as it knows. */
    function Touched(me: nat): seq<nat>
      reads this
    {
      if me !in workers then []
      else
        match workers[me]
        case Examining(_, _, touched) => touched
        case Looked(_, _, touched, _) => touched
        case Notifying(_, users) => users
        case Mailing(_, users, _) => users
        case Marking(_, users, _) => users
    }

    /** Everything but the workers, the reminders and the log is as it was in `s`. */
    predicate SameRest(s: World)
      reads this
    {
      created == s.created && messages == s.messages && optedIn == s.optedIn && addresses == s.addresses && clock == s.clock
    }

    constructor (clock: int)
      ensures State() == World(map[], {}, map[], {}, {}, map[], clock, [])
    {
      reminders, created, messages, optedIn, addresses, workers, log := map[], {}, map[], {}, {}, map[], [];
      this.clock := clock;
    }

    /** Whatever the rest of the system does while `me` awaits. */
    method Others(me: nat, events: seq<Event>)
      requires AllByOthers(events, me)
      modifies this
      ensures State() == Run(old(State()), events)
      ensures me in workers <==> me in old(workers)
      ensures me in workers ==> workers[me] == old(workers[me])
    {
      OthersLeaveMe(State(), events, me);
      assert events[0..] == events;
      for i := 0 to |events|
        invariant Run(State(), events[i..]) == Run(old(State()), events)
      {
        assert events[i..][1..] == events[i + 1..];
        var next := Step(State(), events[i]);
        reminders, created, messages, optedIn := next.reminders, next.created, next.messages, next.optedIn;
        addresses, workers, clock, log := next.addresses, next.workers, next.clock, next.log;
      }
      assert events[|events|..] == [];
    }

    /** `createFollowUpReminder`: nothing when the thread already has an open one. */
    method CreateFollowUpReminder(id: nat, user: nat, thread: nat, days: nat) returns (made: bool)
      requires id !in created
      modifies this
      ensures made <==> forall x | x in old(reminders) ::
        !(old(reminders)[x].user == user && old(reminders)[x].thread == thread && Open(old(reminders)[x].status))
      ensures State() == if made then Step(old(State()), Create(id, user, thread, days)) else old(State())
      ensures reminders == if made
        then old(reminders)[id := Reminder(user, thread, clock + days * DAY_MS, clock, PENDING, None, None)] else old(reminders)
    {
      if exists x | x in reminders :: reminders[x].user == user && reminders[x].thread == thread && Open(reminders[x].status) {
        return false;
      }
      reminders := reminders[id := Reminder(user, thread, clock + days * DAY_MS, clock, PENDING, None, None)];
      created := created + {id};
      return true;
    }

    /** `dismissReminder`: a conditional update; a second dismissal changes nothing. */
    method DismissReminder(id: nat) returns (found: bool)
      modifies this`reminders
      ensures State() == Step(old(State()), Dismiss(id))
      ensures found <==> id in old(reminders)
      ensures reminders == if found then old(reminders)[id := old(reminders)[id].(status := DISMISSED)] else old(reminders)
    {
      if id in reminders && reminders[id].status != DISMISSED {
        reminders := reminders[id := reminders[id].(status := DISMISSED)];
      } else if id in reminders {
        assert reminders == reminders[id := reminders[id].(status := DISMISSED)];
      }
      return id in reminders;
    }

    /** `snoozeReminder`: no condition on the status it finds. */
    method SnoozeReminder(id: nat, days: nat) returns (found: bool)
      modifies this`reminders
      ensures State() == Step(old(State()), Snooze(id, days))
      ensures found <==> id in old(reminders)
      ensures !found ==> reminders == old(reminders)
      ensures found ==> reminders == old(reminders)[id := old(reminders)[id].(
        status := SNOOZED, snoozedUntil := Some(clock + days * DAY_MS), digestSentAt := None)]
    {
      if id !in reminders { return false; }
      reminders := reminders[id :=
        reminders[id].(status := SNOOZED, snoozedUntil := Some(clock + days * DAY_MS), digestSentAt := None)];
      return true;
    }

    /** `orderBy: dueAt asc, take: limit`. */
    method Take(matching: set<nat>, limit: nat) returns (ids: seq<nat>)
      requires matching <= reminders.Keys
      ensures Batch(reminders, matching, limit, ids)
    {
      ids := [];
      var remaining := matching;
      while |ids| < limit && remaining != {}
        invariant Distinct(ids) && |ids| <= limit && remaining <= matching
        invariant forall id | id in ids :: id in matching && id !in remaining
        invariant forall id | id in matching :: id in ids || id in remaining
        invariant forall i, j | 0 <= i < j < |ids| :: reminders[ids[i]].dueAt <= reminders[ids[j]].dueAt
        invariant forall id, other | id in ids && other in remaining :: reminders[id].dueAt <= reminders[other].dueAt
        decreases remaining
      {
        ghost var e := EarliestExists(reminders, remaining);
        var next :| next in remaining && forall id | id in remaining :: reminders[next].dueAt <= reminders[id].dueAt;
        ids := ids + [next];
        remaining := remaining - {next};
      }
    }

    /** The conditional update a look leads to, and the user it touches. */
    method Decide(me: nat, fails: bool)
      requires me in workers && workers[me].Looked? && workers[me].todo != []
      modifies this
      ensures State() == Step(old(State()), Settle(me, fails))
      ensures Moved(old(workers[me]).todo[1..], old(workers[me]).now, me) && SameRest(old(State()))
      ensures var pc := old(workers[me]); var snap := pc.todo[0]; var found := snap.id in old(reminders);
        var due := snap.row.status == PENDING && snap.row.dueAt <= pc.now && found && old(reminders)[snap.id].status == PENDING;
        && (pc.answered && found && Open(old(reminders)[snap.id].status) && !fails ==>
              reminders == old(reminders)[snap.id := old(reminders)[snap.id].(status := RESOLVED)])
        && (!pc.answered && due && !fails ==>
              reminders == old(reminders)[snap.id := old(reminders)[snap.id].(status := TRIGGERED)]
              && log == old(log) + [Triggered(me, snap.id)])
        && (fails || !found || (pc.answered && !Open(old(reminders)[snap.id].status)) || (!pc.answered && !due) ==>
              reminders == old(reminders))
        && (fails || pc.answered || !due ==> log == old(log))
        && (Touched(me) == if !pc.answered && (snap.row.status == TRIGGERED || (due && !fails)) && snap.row.user !in pc.touched
                           then pc.touched + [snap.row.user] else pc.touched)
    {
      var pc := workers[me];
      var snap, touched := pc.todo[0], pc.touched;
      if pc.answered {
        if !fails && snap.id in reminders && Open(reminders[snap.id].status) {
          reminders := reminders[snap.id := reminders[snap.id].(status := RESOLVED)];
        }
      } else if snap.row.status == PENDING && snap.row.dueAt <= pc.now {
        if !fails && snap.id in reminders && reminders[snap.id].status == PENDING {
          reminders := reminders[snap.id := reminders[snap.id].(status := TRIGGERED)];
          log := log + [Triggered(me, snap.id)];
          touched := Touch(touched, snap.row.user);
        }
      } else if snap.row.status == TRIGGERED {
        touched := Touch(touched, snap.row.user);
      }
      workers := Put(State(), me, Next(pc.now, pc.todo[1..], touched)).workers;
    }

    /** Done with one reminder: the rest is examined next, or the touched users, if any. */
    predicate Moved(rest: seq<Snap>, now: int, me: nat)
      reads this
    {
      if rest != [] then me in workers && workers[me] == Examining(now, rest, Touched(me))
      else if me in workers then workers[me] == Notifying(now, Touched(me)) && Touched(me) != []
      else true
    }

    /** Has anything inbound landed on the thread? A failed query skips the reminder. */
    method LookForAnswer(me: nat, fails: bool)
      requires me in workers && workers[me].Examining? && workers[me].todo != []
      modifies this`workers
      ensures State() == Step(old(State()), Look(me, fails))
      ensures fails ==> Moved(old(workers[me]).todo[1..], old(workers[me]).now, me) && Touched(me) == old(workers[me]).touched
      ensures var pc := old(workers[me]); !fails ==>
        me in workers && workers[me] == Looked(pc.now, pc.todo, pc.touched, Answered(messages, pc.todo[0].row))
    {
      var pc := workers[me];
      if fails {
        workers := Put(State(), me, Next(pc.now, pc.todo[1..], pc.touched)).workers;
      } else {
        var answered := exists m | m in messages :: Answers(messages[m], pc.todo[0].row);
        workers := workers[me := Looked(pc.now, pc.todo, pc.touched, answered)];
      }
    }

    /** The loop's body for one reminder: look for an answer, then the conditional update. */
    method Examine(me: nat, lookFails: bool, updateFails: bool, gap: seq<Event>) returns (trace: seq<Event>)
      requires me in workers && workers[me].Examining? && workers[me].todo != [] && AllByOthers(gap, me)
      modifies this
      ensures State() == Run(old(State()), trace)
      ensures Moved(old(workers[me]).todo[1..], old(workers[me]).now, me)
      ensures var pc := old(workers[me]); var id, row := pc.todo[0].id, pc.todo[0].row;
        !lookFails && !updateFails && gap == [] && id in old(reminders) && old(reminders)[id] == row && Open(row.status) ==>
        && reminders == old(reminders)[id := Examined(messages, pc.now, row)] && SameRest(old(State()))
        && log == (old(log) + if ComesDue(messages, pc.now, row) then [Triggered(me, id)] else [])
        && (Touched(me) == if TouchesUser(messages, pc.now, row, row.user) && row.user !in pc.touched
                           then pc.touched + [row.user] else pc.touched)
    {
      var start := State();
      trace := ExtendOne(start, [], Look(me, lookFails));
      LookForAnswer(me, lookFails);
      if !lookFails {
        trace := Extend(start, trace, gap);
        Others(me, gap);
        trace := ExtendOne(start, trace, Settle(me, updateFails));
        Decide(me, updateFails);
      }
    }

    method MarkDigest(me: nat, fails: bool)
      requires me in workers && workers[me].Marking? && workers[me].users != []
      modifies this`reminders, this`workers
      ensures State() == Step(old(State()), Mark(me, fails))
      ensures me in workers ==> workers[me] == Notifying(old(workers[me]).now, Touched(me)) && Touched(me) != []
      ensures Touched(me) == old(workers[me]).users[1..]
      ensures reminders == if fails then old(reminders) else MarkAll(old(reminders), old(workers[me]).ids, old(workers[me]).now)
    {
      var pc := workers[me];
      if !fails { reminders := MarkAll(reminders, pc.ids, pc.now); }
      workers := Put(State(), me, Notifying(pc.now, pc.users[1..])).workers;
    }

    /** The mail itself, and the mark that follows a mail reported as sent. */
    method MailDigest(me: nat, delivery: Delivery, markFails: bool, gap: seq<Event>) returns (trace: seq<Event>)
      requires me in workers && workers[me].Mailing? && workers[me].users != [] && AllByOthers(gap, me)
      modifies this
      ensures State() == Run(old(State()), trace)
      ensures me in workers ==> workers[me] == Notifying(old(workers[me]).now, Touched(me)) && Touched(me) != []
      ensures Touched(me) == old(workers[me]).users[1..]
      ensures var pc := old(workers[me]); gap == [] ==>
        && SameRest(old(State()))
        && log == (if delivery.NotSent? then old(log) else old(log) + [Mailed(me, pc.users[0], pc.ids)])
        && reminders == (if delivery.Sent? && !markFails then MarkAll(old(reminders), pc.ids, pc.now) else old(reminders))
    {
      var start := State();
      var pc := workers[me];
      trace := ExtendOne(start, [], Send(me, delivery));
      if !delivery.NotSent? { log := log + [Mailed(me, pc.users[0], pc.ids)]; }
      if delivery.Sent? {
        workers := workers[me := Marking(pc.now, pc.users, pc.ids)];
        trace := Extend(start, trace, gap);
        Others(me, gap);
        trace := ExtendOne(start, trace, Mark(me, markFails));
        MarkDigest(me, markFails);
        return;
      }
      workers := Put(State(), me, Notifying(pc.now, pc.users[1..])).workers;
    }

    /** `sendFollowUpDigest` for one user: choose, send, then mark. When nobody interferes, a user
        who wants digests, can be reached and has something due is mailed the first ten of it,
        and those are marked when the mail is reported as sent. */
    method SendFollowUpDigest(me: nat, fails: bool, delivery: Delivery, markFails: bool, gaps: (seq<Event>, seq<Event>))
      returns (trace: seq<Event>, ghost ids: seq<nat>)
      requires me in workers && workers[me].Notifying? && workers[me].users != []
      requires AllByOthers(gaps.0, me) && AllByOthers(gaps.1, me)
      modifies this
      ensures State() == Run(old(State()), trace)
      ensures me in workers ==> workers[me] == Notifying(old(workers[me]).now, Touched(me)) && Touched(me) != []
      ensures Touched(me) == old(workers[me]).users[1..]
      ensures var user, now := old(workers[me]).users[0], old(workers[me]).now;
        fails || user !in old(optedIn) || user !in old(addresses) || MailableIds(old(reminders), user, now) == {} ==>
        reminders == old(reminders) && log == old(log) && SameRest(old(State()))
      ensures var user, now := old(workers[me]).users[0], old(workers[me]).now;
        !fails && user in old(optedIn) && user in old(addresses) && MailableIds(old(reminders), user, now) != {}
        && gaps.0 == gaps.1 == [] ==>
        && ids != [] && Batch(old(reminders), MailableIds(old(reminders), user, now), MAX_ITEMS, ids) && SameRest(old(State()))
        && log == (if delivery.NotSent? then old(log) else old(log) + [Mailed(me, user, ids)])
        && reminders == (if delivery.Sent? && !markFails then MarkAll(old(reminders), ids, now) else old(reminders))
    {
      var start := State();
      var pc := workers[me];
      var user := pc.users[0];
      var matching := MailableIds(reminders, user, pc.now);
      var chosen := Take(matching, MAX_ITEMS);
      ids := chosen;
      trace := ExtendOne(start, [], Collect(me, chosen, fails));
      if fails || user !in optedIn || user !in addresses || matching == {} {
        workers := Put(State(), me, Notifying(pc.now, pc.users[1..])).workers;
        return;
      }
      assert chosen == [] ==> forall id | id in matching :: id in chosen;
      workers := workers[me := Mailing(pc.now, pc.users, chosen)];
      trace := Extend(start, trace, gaps.0);
      Others(me, gaps.0);
      var more := MailDigest(me, delivery, markFails, gaps.1);
      trace := Extend(start, trace, more);
    }

    /** The first loop of a check: every row of the batch, one after another. */
    method ExamineBatch(me: nat, ids: seq<nat>, fails: nat -> bool, ghost deliveries: nat -> Delivery, gaps: nat -> seq<Event>)
      returns (trace: seq<Event>, k: nat)
      requires OpenRows(reminders, ids) && forall k: nat :: AllByOthers(gaps(k), me)
      requires if ids == [] then me !in workers else me in workers && workers[me] == Examining(clock, Snaps(reminders, ids), [])
      modifies this
      ensures State() == Run(old(State()), trace)
      ensures me in workers ==> workers[me] == Notifying(old(clock), Touched(me)) && Touched(me) != []
      ensures Calm(fails, deliveries, gaps) ==> ExaminedSoFar(old(State()), me, ids, State(), Touched(me))
    {
      var start := State();
      trace, k := [], 0;
      StartsExamined(start, me, State());
      for n := 0 to |ids|
        invariant State() == Run(start, trace)
        invariant n < |ids| ==> me in workers && workers[me] == Examining(start.clock, Snaps(start.reminders, ids)[n..], Touched(me))
        invariant n == |ids| && me in workers ==> workers[me] == Notifying(start.clock, Touched(me)) && Touched(me) != []
        invariant Calm(fails, deliveries, gaps) ==> ExaminedSoFar(start, me, ids[..n], State(), Touched(me))
      {
        trace := Extend(start, trace, gaps(k));
        Others(me, gaps(k));
        assert workers[me].todo[0] == Snap(ids[n], start.reminders[ids[n]]);
        ghost var before, touched := State(), Touched(me);
        if Calm(fails, deliveries, gaps) { AsSeen(start, me, ids, n, before, touched); }
        var more := Examine(me, fails(k), fails(k + 1), gaps(k + 1));
        trace := Extend(start, trace, more);
        if Calm(fails, deliveries, gaps) { ExaminedGrows(start, me, ids, n, before, touched, State(), Touched(me)); }
        k := k + 2;
      }
      assert ids[..|ids|] == ids;
    }

    /** The second loop: the digest of every touched user. */
    method MailTouched(me: nat, first: nat, fails: nat -> bool, deliveries: nat -> Delivery, gaps: nat -> seq<Event>)
      returns (trace: seq<Event>, ghost mails: seq<Act>)
      requires me in workers ==> workers[me].Notifying? && workers[me].users != []
      requires forall k: nat :: AllByOthers(gaps(k), me)
      modifies this
      ensures State() == Run(old(State()), trace) && me !in workers
      ensures Calm(fails, deliveries, gaps) && me in old(workers) && Distinct(old(Touched(me))) ==>
        MailedSoFar(old(State()), me, old(workers[me]).now, old(Touched(me)), mails, State())
      ensures me !in old(workers) ==> mails == [] && State() == old(State())
    {
      var mid := State();
      ghost var users, j := Touched(me), 0;
      ghost var now := if me in workers then workers[me].now else 0;
      var k := first;
      trace, mails := [], [];
      StartsMailed(mid, me, now);
      while me in workers
        invariant State() == Run(mid, trace) && (me !in mid.workers ==> State() == mid && mails == [])
        invariant me in workers ==> workers[me] == Notifying(now, Touched(me)) && Touched(me) != []
        invariant j <= |users| && Touched(me) == users[j..]
        invariant Calm(fails, deliveries, gaps) && Distinct(users) ==> MailedSoFar(mid, me, now, users[..j], mails, State())
        decreases if me in workers then |workers[me].users| else 0
      {
        trace := Extend(mid, trace, gaps(k));
        Others(me, gaps(k));
        ghost var before := State();
        ghost var ids;
        var more;
        more, ids := SendFollowUpDigest(me, fails(k), deliveries(k), fails(k + 1), (gaps(k + 1), gaps(k + 2)));
        trace := Extend(mid, trace, more);
        if Calm(fails, deliveries, gaps) && Distinct(users) { mails := MailedNext(mid, me, now, users, j, mails, before, ids, State()); }
        k := k + 3;
        j := j + 1;
      }
      assert users[..j] == users;
    }

    /** `runFollowUpCheck`: every open reminder, then every touched user. `fails(k)` and
        `gaps(k)` say what goes wrong and what else happens at the k-th await. When nothing does,
        the batch is examined and the digests of the touched users are mailed and marked. */
    method RunFollowUpCheck(me: nat, only: Option<nat>, fails: nat -> bool, deliveries: nat -> Delivery, gaps: nat -> seq<Event>)
      returns (trace: seq<Event>, ghost batch: seq<nat>, ghost mails: seq<Act>)
      requires me !in workers && forall k: nat :: AllByOthers(gaps(k), me)
      modifies this
      ensures State() == Run(old(State()), trace)
      ensures me !in workers
      ensures Batch(old(reminders), OpenIds(old(reminders), only), CHECK_BATCH, batch)
      ensures Calm(fails, deliveries, gaps) ==> CheckDone(old(State()), me, batch, mails, State())
    {
      var start := State();
      var ids := Take(OpenIds(reminders, only), CHECK_BATCH);
      batch := ids;
      trace := ExtendOne(start, [], StartCheck(me, only, ids));
      workers := Put(State(), me, Next(clock, Snaps(reminders, ids), [])).workers;
      ghost var begun := State();
      var more, k := ExamineBatch(me, ids, fails, deliveries, gaps);
      trace := Extend(start, trace, more);
      ghost var mid, users := State(), Touched(me);
      var rest;
      rest, mails := MailTouched(me, k, fails, deliveries, gaps);
      trace := Extend(start, trace, rest);
      if Calm(fails, deliveries, gaps) {
        SameStart(start, begun, me, ids, mid, users);
        if me !in mid.workers { StartsMailed(mid, me, start.clock); }
        BothHalves(start, me, ids, mid, users, mails, State());
      }
    }
  }
}
