/** Access tokens behind a Redis lock (`apps/api/src/lib/mutex.ts`,
    `apps/api/src/providers/tokenManager.ts`).

    Every call of `getAccessToken` is a caller with its own random lock token. Callers run in
    any number of processes and interleave at every await; one may die anywhere. The provider
    may rotate the refresh token on use, and then honours only the newest. Times are
    milliseconds.
 */
module Tokens {
  import opened Common

  const REFRESH_SKEW_MS: nat := 300_000
  const MUTEX_TTL_MS: nat := 20_000
  const MUTEX_WAIT_MS: nat := 15_000
  const RETRY_DELAY_MS: nat := 100
  const FALLBACK_EXPIRES_IN_SECONDS: nat := 300
  const CURRENT_KEY_VERSION: nat := 1

  /** A key set with an expiry: after `until` it is as if deleted. */
  datatype Lock = Free | Held(owner: nat, until: nat)

  datatype Status = Pending | Working | Failing | Revoked

  datatype Row = Row(
    status: Status, access: Option<nat>, refresh: Option<nat>, expiresAt: Option<nat>, keyVersion: nat)

  datatype Grant = Grant(access: nat, refresh: Option<nat>, expiresAt: nat)

  datatype Outcome = AccessToken(token: nat) | MailAccountRevoked | LockTimeout | RefreshFailed

  /** Where a caller stands between two awaits. */
  datatype Pc =
    | Waiting(deadline: nat)
    | Locked(since: nat)
    | Refreshing(since: nat, sent: nat, readAt: nat, status: Status)
    | Granted(since: nat, grant: Grant, status: Status)
    | Refused(since: nat)
    | Leaving(since: nat, outcome: Outcome)
    | Finished(outcome: Outcome)
    | Crashed

  /** The token endpoint: an answer, an answer lost on the way, or no request made. */
  datatype Answer =
    | Answered(expiresIn: Option<nat>, rotates: bool)
    | AnswerLost(expiresIn: Option<nat>, rotates: bool)
    | Unreachable

  /** A refresh the provider performed: when the caller found its row stale, and what it got. */
  datatype Refresh = Refresh(decidedAt: nat, expiresAt: nat, access: nat)

  /** `live` is the refresh token the provider honours, `refreshes` the record of those it
      performed. `intact` stays true until a grant is lost on the way to the row (a crash, a
      lost answer or a failed write after the provider acted) or the provider withdraws it. */
  datatype World = World(
    clock: nat, lock: Lock, row: Row, callers: map<nat, Pc>,
    live: Option<nat>, minted: nat, refreshes: seq<Refresh>, intact: bool)

  datatype Event =
    | Tick(ms: nat)
    | Start(caller: nat)
    | TryLock(caller: nat)
    | Reread(caller: nat)
    | Ask(caller: nat, answer: Answer)
    | Write(caller: nat, ok: bool)
    | MarkRevoked(caller: nat, ok: bool)
    | Release(caller: nat, reachable: bool)
    | Crash(caller: nat)
    | Withdraw
    | SyncStatus(status: Status)

  // ---- One step ----

  predicate IsFresh(row: Row, now: nat) {
    row.access.Some? && row.expiresAt.Some? && row.expiresAt.value - REFRESH_SKEW_MS > now
  }

  predicate Usable(row: Row, now: nat) {
    IsFresh(row, now) && row.keyVersion == CURRENT_KEY_VERSION
  }

  predicate Available(lock: Lock, now: nat) {
    lock.Free? || lock.until <= now
  }

  function Move(s: World, caller: nat, pc: Pc): World {
    s.(callers := s.callers[caller := pc])
  }

  function Begin(s: World, caller: nat): World {
    if s.row.status.Revoked? then Move(s, caller, Finished(MailAccountRevoked))
    else if Usable(s.row, s.clock) then Move(s, caller, Finished(AccessToken(s.row.access.value)))
    else Move(s, caller, Waiting(s.clock + MUTEX_WAIT_MS))
  }

  function Poll(s: World, caller: nat, deadline: nat): World {
    if Available(s.lock, s.clock) then
      Move(s.(lock := Held(caller, s.clock + MUTEX_TTL_MS)), caller, Locked(s.clock))
    else if s.clock >= deadline then Move(s, caller, Finished(LockTimeout))
    else s
  }

  function ReadAgain(s: World, caller: nat, since: nat): World {
    if s.row.status.Revoked? then Move(s, caller, Leaving(since, MailAccountRevoked))
    else if Usable(s.row, s.clock) then Move(s, caller, Leaving(since, AccessToken(s.row.access.value)))
    else if s.row.refresh.None? then Move(s, caller, Leaving(since, MailAccountRevoked))
    else Move(s, caller, Refreshing(since, s.row.refresh.value, s.clock, s.row.status))
  }

  function ExpiresAt(now: nat, expiresIn: Option<nat>): nat {
    now + (if expiresIn.Some? then expiresIn.value else FALLBACK_EXPIRES_IN_SECONDS) * 1_000
  }

  /** The provider performs a refresh it accepts. */
  function Perform(s: World, readAt: nat, expiresIn: Option<nat>, rotates: bool): (World, Grant) {
    var grant := Grant(s.minted + 1, if rotates then Some(s.minted + 2) else None, ExpiresAt(s.clock, expiresIn));
    (s.(live := if rotates then Some(s.minted + 2) else s.live, minted := s.minted + 2,
        refreshes := s.refreshes + [Refresh(readAt, grant.expiresAt, grant.access)]), grant)
  }

  function Asked(s: World, caller: nat, pc: Pc, answer: Answer): World
    requires pc.Refreshing?
  {
    if answer.Unreachable? then Move(s, caller, Leaving(pc.since, RefreshFailed))
    else if s.live != Some(pc.sent) then Move(s, caller, Refused(pc.since))
    else
      var done := Perform(s, pc.readAt, answer.expiresIn, answer.rotates);
      if answer.Answered? then Move(done.0, caller, Granted(pc.since, done.1, pc.status))
      else Move(done.0.(intact := false), caller, Leaving(pc.since, RefreshFailed))
  }

  /** A refresh that works clears an error status seen at the re-read; a token that did not
      rotate leaves the stored one alone. */
  function Stored(row: Row, grant: Grant, seen: Status): Row {
    Row(if seen.Failing? then Pending else row.status, Some(grant.access),
        if grant.refresh.Some? then grant.refresh else row.refresh, Some(grant.expiresAt), CURRENT_KEY_VERSION)
  }

  function Dropped(row: Row): Row {
    Row(Revoked, None, None, None, row.keyVersion)
  }

  function Step(s: World, e: Event): World {
    match e
    case Tick(ms) => s.(clock := s.clock + ms)
    case Start(p) => if p in s.callers then s else Begin(s, p)
    case TryLock(p) =>
      if p in s.callers && s.callers[p].Waiting? then Poll(s, p, s.callers[p].deadline) else s
    case Reread(p) =>
      if p in s.callers && s.callers[p].Locked? then ReadAgain(s, p, s.callers[p].since) else s
    case Ask(p, answer) =>
      if p in s.callers && s.callers[p].Refreshing? then Asked(s, p, s.callers[p], answer) else s
    case Write(p, ok) =>
      if p in s.callers && s.callers[p].Granted? then
        var pc := s.callers[p];
        if ok then Move(s.(row := Stored(s.row, pc.grant, pc.status)), p, Leaving(pc.since, AccessToken(pc.grant.access)))
        else Move(s.(intact := false), p, Leaving(pc.since, RefreshFailed))
      else s
    case MarkRevoked(p, ok) =>
      if p in s.callers && s.callers[p].Refused? then
        var since := s.callers[p].since;
        if ok then Move(s.(row := Dropped(s.row)), p, Leaving(since, MailAccountRevoked))
        else Move(s, p, Leaving(since, RefreshFailed))
      else s
    case Release(p, reachable) =>
      if p in s.callers && s.callers[p].Leaving? then
        var mine := reachable && s.lock.Held? && s.lock.owner == p;
        Move(if mine then s.(lock := Free) else s, p, Finished(s.callers[p].outcome))
      else s
    case Crash(p) =>
      if p in s.callers && !s.callers[p].Finished? then
        Move(s.(intact := s.intact && !s.callers[p].Granted?), p, Crashed)
      else s
    case Withdraw => s.(live := None, intact := false)
    case SyncStatus(status) =>
      if status.Revoked? || s.row.status.Revoked? then s else s.(row := s.row.(status := status))
  }

  function Run(s: World, events: seq<Event>): World
    decreases events
  {
    if events == [] then s else Run(Step(s, events[0]), events[1..])
  }

  lemma {:induction false} RunConcat(s: World, a: seq<Event>, b: seq<Event>)
    ensures Run(s, a + b) == Run(Run(s, a), b)
    decreases a
  {
    if a == [] {
      assert a + b == b;
    } else {
      assert (a + b)[1..] == a[1..] + b;
      RunConcat(Step(s, a[0]), a[1..], b);
    }
  }

  /** What goes on around the callers: time passes, callers die, the user withdraws the grant,
      and a sync sets or clears an error, but never a revocation. */
  lemma Surroundings(s: World, p: nat, ms: nat, status: Status)
    ensures Step(s, Tick(ms)) == s.(clock := s.clock + ms)
    ensures p in s.callers && !s.callers[p].Finished? ==>
      Step(s, Crash(p)).callers == s.callers[p := Crashed] && Step(s, Crash(p)).lock == s.lock && Step(s, Crash(p)).row == s.row
    ensures Step(s, Withdraw).live.None? && Step(s, Withdraw).row == s.row
    ensures !status.Revoked? && !s.row.status.Revoked? ==> Step(s, SyncStatus(status)).row == s.row.(status := status)
    ensures s.row.status.Revoked? || status.Revoked? ==> Step(s, SyncStatus(status)) == s
  {}

  /** A mailbox just connected. */
  predicate Fresh(s: World) {
    && s.lock.Free? && s.callers == map[] && s.refreshes == [] && s.intact
    && s.live.Some? && s.row.refresh == s.live && !s.row.status.Revoked?
  }

  // ---- The critical section ----

  predicate InSection(pc: Pc) {
    pc.Locked? || pc.Refreshing? || pc.Granted? || pc.Refused? || pc.Leaving?
  }

  /** No section has outlived the lock that guards it. */
  ghost predicate InTime(s: World) {
    forall p: nat | p in s.callers && InSection(s.callers[p]) :: s.clock < s.callers[p].since + MUTEX_TTL_MS
  }

  ghost predicate Timely(s: World, events: seq<Event>)
    decreases events
  {
    InTime(s) && (events == [] || Timely(Step(s, events[0]), events[1..]))
  }

  ghost predicate HoldsLock(s: World, p: nat)
    requires p in s.callers && InSection(s.callers[p])
  {
    s.lock == Held(p, s.callers[p].since + MUTEX_TTL_MS)
  }

  predicate IsGranted(s: World, p: nat) {
    p in s.callers && s.callers[p].Granted?
  }

  /** The row holds the live refresh token and the last performed refresh. */
  predicate Synced(s: World) {
    && s.row.refresh == s.live
    && (s.refreshes != [] ==>
          s.row.access == Some(s.refreshes[|s.refreshes| - 1].access) && s.row.keyVersion == CURRENT_KEY_VERSION
          && s.row.expiresAt == Some(s.refreshes[|s.refreshes| - 1].expiresAt))
  }

  /** A refresh starts only once the one before it was within the skew of its expiry. */
  predicate Paced(refreshes: seq<Refresh>) {
    forall i, j | 0 <= i < |refreshes| && j == i + 1 && j < |refreshes| ::
      refreshes[i].expiresAt <= refreshes[j].decidedAt + REFRESH_SKEW_MS
  }

  /** What a caller in its section may rely on. */
  ghost predicate PcOk(s: World, pc: Pc) {
    match pc
    case Refreshing(_, sent, readAt, _) =>
      Some(sent) == s.live && readAt <= s.clock && !Usable(s.row, readAt)
    case Granted(_, grant, _) =>
      && (if grant.refresh.Some? then grant.refresh == s.live else s.row.refresh == s.live)
      && s.refreshes != [] && s.refreshes[|s.refreshes| - 1].expiresAt == grant.expiresAt
      && s.refreshes[|s.refreshes| - 1].access == grant.access
      && !Usable(s.row, s.refreshes[|s.refreshes| - 1].decidedAt)
    case Refused(_) => false
    case _ => true
  }

  /** While no grant has been lost: one account of the tokens, and nobody refused. */
  ghost predicate Consistent(s: World) {
    && s.live.Some? && !s.row.status.Revoked?
    && ((forall p: nat :: !IsGranted(s, p)) ==> Synced(s))
    && (forall p: nat | p in s.callers :: PcOk(s, s.callers[p]))
    && Paced(s.refreshes)
    && (forall i | 0 <= i < |s.refreshes| :: s.refreshes[i].decidedAt <= s.clock)
  }

  ghost predicate Inv(s: World) {
    && (forall p: nat | p in s.callers && InSection(s.callers[p]) :: HoldsLock(s, p))
    && (s.intact ==> Consistent(s))
  }

  lemma FreshInv(s: World)
    requires Fresh(s)
    ensures Inv(s)
  {}

  /** A caller moves and nothing it shares changes, except that its lock may be given up. */
  lemma MoveInv(s: World, p: nat, pc: Pc, t: World)
    requires Inv(s) && (p in s.callers ==> !s.callers[p].Granted?)
    requires t == Move(s, p, pc) || (t == Move(s.(lock := Free), p, pc) && !InSection(pc) && s.lock.Held? && s.lock.owner == p)
    requires InSection(pc) ==> s.lock == Held(p, pc.since + MUTEX_TTL_MS)
    requires s.intact ==> PcOk(s, pc) && !pc.Granted?
    ensures Inv(t)
  {
    forall q: nat | q in t.callers && InSection(t.callers[q]) ensures HoldsLock(t, q) {
      if q != p { assert HoldsLock(s, q); }
    }
    if s.intact {
      assert forall q: nat :: IsGranted(t, q) <==> IsGranted(s, q);
      forall q: nat | q in t.callers ensures PcOk(t, t.callers[q]) {
        if q != p { assert PcOk(s, s.callers[q]); }
      }
    }
  }

  /** Whoever is in its section, everyone else is not. */
  lemma Alone(s: World, p: nat, q: nat)
    requires Inv(s) && p in s.callers && InSection(s.callers[p]) && q in s.callers && InSection(s.callers[q])
    ensures p == q
  {
    assert HoldsLock(s, p) && HoldsLock(s, q);
  }

  /** Nothing is shared any more: only the lock matters. */
  lemma BrokenInv(s: World, p: nat, pc: Pc, t: World)
    requires Inv(s) && p in s.callers && InSection(s.callers[p]) && !t.intact
    requires t.lock == s.lock && t.callers == s.callers[p := pc]
    requires InSection(pc) ==> pc.since == s.callers[p].since
    ensures Inv(t)
  {
    forall q: nat | q in s.callers && InSection(s.callers[q]) ensures q == p { Alone(s, p, q); }
    assert HoldsLock(s, p);
  }

  lemma NobodyInSection(s: World)
    requires Inv(s) && InTime(s) && Available(s.lock, s.clock)
    ensures forall q: nat | q in s.callers :: !InSection(s.callers[q])
  {
    forall q: nat | q in s.callers ensures !InSection(s.callers[q]) {
      assert InSection(s.callers[q]) ==> HoldsLock(s, q);
    }
  }

  lemma PollInv(s: World, p: nat)
    requires Inv(s) && InTime(s) && p in s.callers && s.callers[p].Waiting?
    ensures Inv(Step(s, TryLock(p)))
  {
    var t := Step(s, TryLock(p));
    if Available(s.lock, s.clock) {
      NobodyInSection(s);
      assert forall q: nat | q in t.callers && InSection(t.callers[q]) :: q == p;
      if s.intact {
        assert forall q: nat :: !IsGranted(t, q) && !IsGranted(s, q);
        forall q: nat | q in t.callers ensures PcOk(t, t.callers[q]) {
          if q != p { assert PcOk(s, s.callers[q]); }
        }
      }
    } else if s.clock >= s.callers[p].deadline {
      MoveInv(s, p, Finished(LockTimeout), t);
    }
  }

  lemma ReadAgainInv(s: World, p: nat)
    requires Inv(s) && p in s.callers && s.callers[p].Locked?
    ensures Inv(Step(s, Reread(p)))
  {
    var t := Step(s, Reread(p));
    assert HoldsLock(s, p);
    forall q: nat ensures !IsGranted(s, q) {
      if IsGranted(s, q) { Alone(s, p, q); }
    }
    MoveInv(s, p, t.callers[p], t);
  }

  lemma PacedAppend(refreshes: seq<Refresh>, next: Refresh)
    requires Paced(refreshes)
    requires refreshes != [] ==> refreshes[|refreshes| - 1].expiresAt <= next.decidedAt + REFRESH_SKEW_MS
    ensures Paced(refreshes + [next])
  {
    var all := refreshes + [next];
    forall i, j | 0 <= i < |all| && j == i + 1 && j < |all|
      ensures all[i].expiresAt <= all[j].decidedAt + REFRESH_SKEW_MS
    {
      if j < |refreshes| { assert refreshes[i].expiresAt <= refreshes[j].decidedAt + REFRESH_SKEW_MS; }
    }
  }

  lemma AskInv(s: World, p: nat, answer: Answer)
    requires Inv(s) && p in s.callers && s.callers[p].Refreshing?
    ensures Inv(Step(s, Ask(p, answer)))
  {
    var t := Step(s, Ask(p, answer));
    var pc := s.callers[p];
    assert HoldsLock(s, p);
    if s.intact { assert PcOk(s, pc); }
    if answer.Unreachable? || s.live != Some(pc.sent) {
      MoveInv(s, p, t.callers[p], t);
    } else if answer.AnswerLost? || !s.intact {
      BrokenInv(s, p, t.callers[p], t);
    } else {
      forall q: nat ensures !IsGranted(s, q) && (q != p ==> q !in s.callers || !InSection(s.callers[q])) {
        if q in s.callers && InSection(s.callers[q]) { Alone(s, p, q); }
      }
      assert Synced(s);
      PacedAppend(s.refreshes, Refresh(pc.readAt, ExpiresAt(s.clock, answer.expiresIn), s.minted + 1));
      assert IsGranted(t, p);
      forall q: nat | q in t.callers ensures PcOk(t, t.callers[q]) {
        if q != p { assert !InSection(s.callers[q]); }
      }
    }
  }

  lemma WriteInv(s: World, p: nat, ok: bool)
    requires Inv(s) && IsGranted(s, p)
    ensures Inv(Step(s, Write(p, ok)))
  {
    var t := Step(s, Write(p, ok));
    if !ok || !s.intact {
      BrokenInv(s, p, t.callers[p], t);
    } else {
      assert HoldsLock(s, p) && PcOk(s, s.callers[p]);
      forall q: nat | q != p && q in s.callers ensures !InSection(s.callers[q]) {
        if InSection(s.callers[q]) { Alone(s, p, q); }
      }
      assert forall q: nat :: !IsGranted(t, q);
      assert Synced(t);
    }
  }

  lemma LeaveInv(s: World, p: nat, e: Event)
    requires Inv(s) && p in s.callers
    requires (e.Release? && e.caller == p && s.callers[p].Leaving?)
          || (e.MarkRevoked? && e.caller == p && s.callers[p].Refused?)
    ensures Inv(Step(s, e))
  {
    var t := Step(s, e);
    assert HoldsLock(s, p);
    if e.Release? {
      MoveInv(s, p, t.callers[p], t);
    } else {
      assert s.intact ==> PcOk(s, s.callers[p]);
      BrokenInv(s, p, t.callers[p], t);
    }
  }

  lemma {:induction false} CrashInv(s: World, p: nat)
    requires Inv(s) && p in s.callers && !s.callers[p].Finished?
    ensures Inv(Step(s, Crash(p)))
  {
    var t := Step(s, Crash(p));
    if s.callers[p].Granted? {
      BrokenInv(s, p, Crashed, t);
    } else {
      MoveInv(s, p, Crashed, t);
    }
  }

  lemma AmbientInv(s: World, e: Event)
    requires Inv(s) && (e.Tick? || e.Withdraw? || e.SyncStatus?)
    ensures Inv(Step(s, e))
  {
    var t := Step(s, e);
    forall p: nat | p in t.callers && InSection(t.callers[p]) ensures HoldsLock(t, p) {
      assert HoldsLock(s, p);
    }
    if t.intact {
      assert forall p: nat :: IsGranted(t, p) <==> IsGranted(s, p);
      forall p: nat | p in t.callers ensures PcOk(t, t.callers[p]) { assert PcOk(s, s.callers[p]); }
    }
  }

  lemma StepInv(s: World, e: Event)
    requires Inv(s) && InTime(s)
    ensures Inv(Step(s, e))
  {
    match e
    case Tick(_) => AmbientInv(s, e);
    case Withdraw => AmbientInv(s, e);
    case SyncStatus(_) => AmbientInv(s, e);
    case Start(p) => if p !in s.callers { MoveInv(s, p, Step(s, e).callers[p], Step(s, e)); }
    case TryLock(p) => if p in s.callers && s.callers[p].Waiting? { PollInv(s, p); }
    case Reread(p) => if p in s.callers && s.callers[p].Locked? { ReadAgainInv(s, p); }
    case Ask(p, answer) => if p in s.callers && s.callers[p].Refreshing? { AskInv(s, p, answer); }
    case Write(p, ok) => if IsGranted(s, p) { WriteInv(s, p, ok); }
    case MarkRevoked(p, _) => if p in s.callers && s.callers[p].Refused? { LeaveInv(s, p, e); }
    case Release(p, _) => if p in s.callers && s.callers[p].Leaving? { LeaveInv(s, p, e); }
    case Crash(p) => if p in s.callers && !s.callers[p].Finished? { CrashInv(s, p); }
  }

  lemma {:induction false} RunInv(s: World, events: seq<Event>)
    requires Inv(s) && Timely(s, events)
    ensures Inv(Run(s, events))
    decreases events
  {
    if events != [] {
      StepInv(s, events[0]);
      RunInv(Step(s, events[0]), events[1..]);
    }
  }

  // ---- What holds in every run whose sections end in time ----

  /** At most one caller is between taking the lock and giving it back. */
  lemma MutualExclusion(s: World, events: seq<Event>, p: nat, q: nat)
    requires Fresh(s) && Timely(s, events)
    requires var t := Run(s, events); p in t.callers && InSection(t.callers[p]) && q in t.callers && InSection(t.callers[q])
    ensures p == q
  {
    FreshInv(s);
    RunInv(s, events);
    Alone(Run(s, events), p, q);
  }

  /** Unless a grant is lost or withdrawn, the mailbox is never marked revoked, no refresh is
      refused, and whenever no answer is waiting to be written the row holds the live token. */
  lemma TokensStaySynced(s: World, events: seq<Event>)
    requires Fresh(s) && Timely(s, events) && Run(s, events).intact
    ensures var t := Run(s, events);
      && t.live.Some? && !t.row.status.Revoked?
      && (forall p: nat | p in t.callers :: !t.callers[p].Refused?)
      && ((forall p: nat :: !IsGranted(t, p)) ==> t.row.refresh == t.live)
  {
    FreshInv(s);
    RunInv(s, events);
    var t := Run(s, events);
    forall p: nat | p in t.callers ensures !t.callers[p].Refused? { assert PcOk(t, t.callers[p]); }
  }

  /** However many callers find the row stale, the provider refreshes once per lifetime less the skew. */
  lemma OneRefreshPerLifetime(s: World, events: seq<Event>)
    requires Fresh(s) && Timely(s, events) && Run(s, events).intact
    ensures Paced(Run(s, events).refreshes)
    ensures var t := Run(s, events);
      t.refreshes != [] && t.clock + REFRESH_SKEW_MS < t.refreshes[0].expiresAt ==> |t.refreshes| == 1
  {
    FreshInv(s);
    RunInv(s, events);
    var t := Run(s, events);
    if |t.refreshes| > 1 {
      assert t.refreshes[0].expiresAt <= t.refreshes[1].decidedAt + REFRESH_SKEW_MS;
    }
  }

  // ---- What the callers get ----

  /** The answer a caller has, or is about to be given. */
  function OutcomeOf(s: World, p: nat): Option<Outcome> {
    if p in s.callers && s.callers[p].Leaving? then Some(s.callers[p].outcome)
    else if p in s.callers && s.callers[p].Finished? then Some(s.callers[p].outcome)
    else None
  }

  predicate HasRead(e: Event, p: nat) {
    e == Start(p) || e == Reread(p)
  }

  /** The event that gives caller `p` its answer, and why. A stored token is handed out when a
      read finds it fresh; a new one when it has been written. */
  predicate Gives(s: World, e: Event, p: nat, outcome: Outcome) {
    match outcome
    case AccessToken(token) =>
      (HasRead(e, p) && !s.row.status.Revoked? && Usable(s.row, s.clock) && s.row.access == Some(token))
      || (e == Write(p, true) && IsGranted(s, p) && s.callers[p].grant.access == token)
    case MailAccountRevoked =>
      (HasRead(e, p) && (s.row.status.Revoked? || (e.Reread? && !Usable(s.row, s.clock) && s.row.refresh.None?)))
      || (e == MarkRevoked(p, true) && p in s.callers && s.callers[p].Refused?)
    case LockTimeout =>
      e == TryLock(p) && p in s.callers && s.callers[p].Waiting? && s.callers[p].deadline <= s.clock
      && !Available(s.lock, s.clock)
    case RefreshFailed =>
      (e.Ask? && e.caller == p && !e.answer.Answered?) || e == Write(p, false) || e == MarkRevoked(p, false)
  }

  lemma StepGives(s: World, e: Event, p: nat)
    ensures var was, now := OutcomeOf(s, p), OutcomeOf(Step(s, e), p);
      now.Some? ==> now == was || (was.None? && Gives(s, e, p, now.value))
  {}

  /** An answer is final, unless its caller dies with it. */
  predicate HasAnswer(s: World, p: nat, outcome: Outcome) {
    p in s.callers && (OutcomeOf(s, p) == Some(outcome) || s.callers[p].Crashed?)
  }

  lemma AnswerStep(s: World, e: Event, p: nat, outcome: Outcome)
    requires HasAnswer(s, p, outcome)
    ensures HasAnswer(Step(s, e), p, outcome)
  {
    StepGives(s, e, p);
    if OutcomeOf(s, p).Some? && OutcomeOf(Step(s, e), p).None? { assert e.Crash?; }
  }

  lemma {:induction false} AnswerIsFinal(s: World, events: seq<Event>, p: nat, outcome: Outcome)
    requires HasAnswer(s, p, outcome)
    ensures HasAnswer(Run(s, events), p, outcome)
    decreases events
  {
    if events != [] {
      AnswerStep(s, events[0], p, outcome);
      AnswerIsFinal(Step(s, events[0]), events[1..], p, outcome);
    }
  }

  /** Caller `p` has no answer yet, and this event gives it one. */
  predicate GivesNow(s: World, e: Event, p: nat, outcome: Outcome) {
    OutcomeOf(s, p).None? && OutcomeOf(Step(s, e), p) == Some(outcome) && Gives(s, e, p, outcome)
  }

  /** Every answer was given by one event of the run, for its own reason. */
  lemma {:induction false} RunGives(s: World, events: seq<Event>, p: nat) returns (k: nat)
    requires OutcomeOf(s, p).None? && OutcomeOf(Run(s, events), p).Some?
    ensures k < |events| && GivesNow(Run(s, events[..k]), events[k], p, OutcomeOf(Run(s, events), p).value)
    decreases events
  {
    assert events != [];
    var t := Step(s, events[0]);
    StepGives(s, events[0], p);
    if OutcomeOf(t, p).Some? {
      AnswerIsFinal(t, events[1..], p, OutcomeOf(t, p).value);
      k := 0;
      assert events[..0] == [];
    } else {
      var j := RunGives(t, events[1..], p);
      k := j + 1;
      assert events[..k][1..] == events[1..][..j] && events[..k][0] == events[0];
    }
  }

  lemma IntactStep(s: World, e: Event)
    ensures Step(s, e).intact ==> s.intact
  {}

  lemma {:induction false} IntactRun(s: World, events: seq<Event>)
    requires Run(s, events).intact
    ensures s.intact
    decreases events
  {
    if events != [] {
      IntactRun(Step(s, events[0]), events[1..]);
      IntactStep(s, events[0]);
    }
  }

  /** Until the first refresh the row keeps the access token it began with. */
  predicate RowSince(first: Row, s: World) {
    s.refreshes == [] ==> s.row.access == first.access && s.row.expiresAt == first.expiresAt
  }

  lemma RowSinceStep(first: Row, s: World, e: Event)
    requires Inv(s) && s.intact && RowSince(first, s)
    ensures RowSince(first, Step(s, e))
  {
    match e
    case Write(p, _) => if IsGranted(s, p) { assert PcOk(s, s.callers[p]); }
    case MarkRevoked(p, _) => assert p in s.callers ==> PcOk(s, s.callers[p]);
    case _ =>
  }

  /** What held on the way when a run ends intact. */
  lemma {:induction false} OnTheWay(first: Row, s: World, events: seq<Event>, k: nat)
    requires Inv(s) && Timely(s, events) && Run(s, events).intact && k < |events| && RowSince(first, s)
    ensures var u := Run(s, events[..k]);
      u.intact && Inv(u) && RowSince(first, u) && Step(u, events[k]).intact
    decreases events
  {
    var t := Step(s, events[0]);
    StepInv(s, events[0]);
    IntactRun(t, events[1..]);
    IntactStep(s, events[0]);
    if k == 0 {
      assert events[..0] == [];
    } else {
      RowSinceStep(first, s, events[0]);
      OnTheWay(first, t, events[1..], k - 1);
      assert events[..k][1..] == events[1..][..k - 1] && events[..k][0] == events[0];
    }
  }

  /** A token a read hands out: of the latest refresh the provider performed, or of the row the
      mailbox began with, and more than the skew away from its end. */
  predicate FreshToken(first: Row, s: World, token: nat) {
    if s.refreshes == [] then
      first.access == Some(token) && first.expiresAt.Some? && first.expiresAt.value > s.clock + REFRESH_SKEW_MS
    else
      var last := s.refreshes[|s.refreshes| - 1];
      last.access == token && last.expiresAt > s.clock + REFRESH_SKEW_MS
  }

  /** In runs whose sections end in time and in which no grant is lost or withdrawn: nobody is
      told the mailbox was revoked; a token handed out is fresh at that moment, or the one the
      provider has just granted to this caller; a refresh fails only when the provider could
      not be reached, and a wait only past its deadline and with the lock taken. */
  lemma {:induction false} CallersGetTokens(s: World, events: seq<Event>, p: nat) returns (k: nat)
    requires Fresh(s) && Timely(s, events) && Run(s, events).intact && OutcomeOf(Run(s, events), p).Some?
    ensures k < |events|
    ensures var u, e := Run(s, events[..k]), events[k];
      match OutcomeOf(Run(s, events), p).value
      case MailAccountRevoked => false
      case AccessToken(token) =>
        || (HasRead(e, p) && FreshToken(s.row, u, token))
        || (e == Write(p, true) && u.refreshes != [] && u.refreshes[|u.refreshes| - 1].access == token)
      case RefreshFailed => e == Ask(p, Unreachable)
      case LockTimeout =>
        e == TryLock(p) && p in u.callers && u.callers[p].Waiting? && u.callers[p].deadline <= u.clock
        && !Available(u.lock, u.clock)
  {
    FreshInv(s);
    k := RunGives(s, events, p);
    OnTheWay(s.row, s, events, k);
    GivenIntact(s.row, Run(s, events[..k]), events[k], p, OutcomeOf(Run(s, events), p).value);
  }

  lemma GivenIntact(first: Row, u: World, e: Event, p: nat, outcome: Outcome)
    requires Inv(u) && u.intact && RowSince(first, u) && Step(u, e).intact && GivesNow(u, e, p, outcome)
    ensures match outcome
      case MailAccountRevoked => false
      case AccessToken(token) =>
        || (HasRead(e, p) && FreshToken(first, u, token))
        || (e == Write(p, true) && u.refreshes != [] && u.refreshes[|u.refreshes| - 1].access == token)
      case RefreshFailed => e == Ask(p, Unreachable)
      case LockTimeout =>
        e == TryLock(p) && p in u.callers && u.callers[p].Waiting? && u.callers[p].deadline <= u.clock
        && !Available(u.lock, u.clock)
  {
    if HasRead(e, p) {
      if Usable(u.row, u.clock) { FreshIsSynced(u); }
      if e.Reread? { SectionIsSynced(u, p); }
    } else if p in u.callers {
      assert PcOk(u, u.callers[p]);
    }
  }

  lemma GrantedIsStale(u: World, q: nat)
    requires Inv(u) && u.intact && IsGranted(u, q)
    ensures !Usable(u.row, u.clock)
  {
    assert PcOk(u, u.callers[q]);
    assert u.refreshes[|u.refreshes| - 1].decidedAt <= u.clock;
  }

  /** While a grant waits to be written the row is not fresh, so a fresh row is the latest. */
  lemma FreshIsSynced(u: World)
    requires Inv(u) && u.intact && Usable(u.row, u.clock)
    ensures Synced(u)
  {
    forall q: nat ensures !IsGranted(u, q) {
      if IsGranted(u, q) { GrantedIsStale(u, q); }
    }
  }

  lemma SectionIsSynced(u: World, p: nat)
    requires Inv(u) && u.intact && p in u.callers && u.callers[p].Locked?
    ensures Synced(u)
  {
    forall q: nat ensures !IsGranted(u, q) {
      if IsGranted(u, q) { Alone(u, p, q); }
    }
  }

  /** A stored token is used until five minutes before its end; the default lifetime of 300
      seconds is the skew itself, so a token without a stated lifetime is never fresh. */
  lemma FreshUntil(row: Row, grant: Grant, seen: Status, asked: nat, expiresIn: Option<nat>, now: nat)
    requires grant.expiresAt == ExpiresAt(asked, expiresIn) && asked <= now
    ensures Usable(Stored(row, grant, seen), now) <==>
      expiresIn.Some? && now + REFRESH_SKEW_MS < asked + expiresIn.value * 1_000
  {}

  /** In any state whatever, late sections or not: a lock still in force changes hands only
      when its own holder gives it up. */
  lemma OnlyTheHolderReleases(s: World, e: Event)
    requires s.lock.Held? && s.clock < s.lock.until
    ensures Step(s, e).lock == s.lock || (e.Release? && e.caller == s.lock.owner && Step(s, e).lock == Free)
  {}

  // ---- Why the section must end in time ----

  function Connected(): World {
    World(0, Free, Row(Working, Some(1), Some(2), Some(0), CURRENT_KEY_VERSION), map[], Some(2), 2, [], true)
  }

  lemma RunOne(s: World, e: Event)
    ensures Run(s, [e]) == Step(s, e)
  {
    assert [e][1..] == [];
  }

  /** Traces grow at the end. */
  function Extend(s: World, trace: seq<Event>, more: seq<Event>): (longer: seq<Event>)
    ensures longer == trace + more && Run(s, longer) == Run(Run(s, trace), more)
  {
    RunConcat(s, trace, more);
    trace + more
  }

  function ExtendOne(s: World, trace: seq<Event>, e: Event): (longer: seq<Event>)
    ensures longer == trace + [e] && Run(s, longer) == Step(Run(s, trace), e)
  {
    RunConcat(s, trace, [e]);
    RunOne(Run(s, trace), e);
    trace + [e]
  }

  /** Caller 1 is still at it when its lock expires; caller 2 takes the lock over and both
      send the same refresh token. */
  const LATE_SECTION: seq<Event> := [
    Start(1), TryLock(1), Reread(1), Tick(20_000), Start(2), TryLock(2), Reread(2),
    Ask(1, Answered(Some(3_600), true)), Ask(2, Answered(Some(3_600), true)), MarkRevoked(2, true)]

  /** The hypothesis is needed: with nothing lost and the grant alive, the mailbox is marked revoked. */
  lemma LateSectionRevokes()
    ensures Fresh(Connected())
    ensures var t := Run(Connected(), LATE_SECTION); t.intact && t.live.Some? && t.row.status.Revoked?
  {
    var s := Connected();
    var held := ExtendOne(s, ExtendOne(s, ExtendOne(s, [], Start(1)), TryLock(1)), Reread(1));
    assert Run(s, held).callers[1] == Refreshing(0, 2, 0, Working);
    var late := ExtendOne(s, ExtendOne(s, ExtendOne(s, held, Tick(20_000)), Start(2)), TryLock(2));
    assert Run(s, late).callers[2] == Locked(20_000);
    var both := ExtendOne(s, late, Reread(2));
    assert Run(s, both).callers[2] == Refreshing(20_000, 2, 20_000, Working);
    var asked := ExtendOne(s, both, Ask(1, Answered(Some(3_600), true)));
    assert Run(s, asked).live == Some(4);
    var refused := ExtendOne(s, asked, Ask(2, Answered(Some(3_600), true)));
    assert Run(s, refused).callers[2] == Refused(20_000);
    var marked := ExtendOne(s, refused, MarkRevoked(2, true));
    assert marked == LATE_SECTION;
  }

  function Call(p: nat, expiresIn: Option<nat>, rotates: bool): seq<Event> {
    [Start(p), TryLock(p), Reread(p), Ask(p, Answered(expiresIn, rotates)), Write(p, true), Release(p, true)]
  }

  /** Up to the question to the provider. */
  lemma CallAsks(s: World, p: nat)
    requires Fresh(s) && !Usable(s.row, s.clock)
    ensures Run(s, [Start(p), TryLock(p), Reread(p)])
         == s.(lock := Held(p, s.clock + MUTEX_TTL_MS),
               callers := map[p := Refreshing(s.clock, s.live.value, s.clock, s.row.status)])
  {
    var locked := ExtendOne(s, ExtendOne(s, [], Start(p)), TryLock(p));
    assert Run(s, locked).callers[p] == Locked(s.clock);
    var asking := ExtendOne(s, locked, Reread(p));
    assert asking == [Start(p), TryLock(p), Reread(p)];
  }

  /** An accepted refresh, then the write, then the release, each on its own. */
  lemma Granting(s: World, p: nat, expiresIn: Option<nat>, rotates: bool) returns (t: World, grant: Grant)
    requires p in s.callers && s.callers[p].Refreshing? && s.live == Some(s.callers[p].sent)
    ensures t == Step(s, Ask(p, Answered(expiresIn, rotates)))
    ensures grant == Grant(s.minted + 1, if rotates then Some(s.minted + 2) else None, ExpiresAt(s.clock, expiresIn))
    ensures t.callers == s.callers[p := Granted(s.callers[p].since, grant, s.callers[p].status)]
    ensures t.row == s.row && t.lock == s.lock && t.clock == s.clock && t.intact == s.intact
    ensures t.live == (if rotates then grant.refresh else s.live) && t.minted == s.minted + 2
  {
    t := Step(s, Ask(p, Answered(expiresIn, rotates)));
    grant := Perform(s, s.callers[p].readAt, expiresIn, rotates).1;
  }

  lemma WritingReleases(s: World, p: nat) returns (t: World)
    requires p in s.callers && s.callers[p].Granted? && s.lock.Held? && s.lock.owner == p
    ensures t == Step(Step(s, Write(p, true)), Release(p, true))
    ensures t.callers == s.callers[p := Finished(AccessToken(s.callers[p].grant.access))] && t.lock.Free?
    ensures t.row == Stored(s.row, s.callers[p].grant, s.callers[p].status)
    ensures t.clock == s.clock && t.live == s.live && t.intact == s.intact
  {
    t := Step(Step(s, Write(p, true)), Release(p, true));
  }

  lemma RunThree(s: World, a: Event, b: Event, c: Event)
    ensures Run(s, [a, b, c]) == Step(Step(Step(s, a), b), c)
  {
    assert [a, b, c][1..] == [b, c] && [b, c][1..] == [c];
    RunOne(Step(Step(s, a), b), c);
  }

  lemma CallAnswered(s: World, p: nat, expiresIn: Option<nat>, rotates: bool)
    requires p in s.callers && s.callers[p].Refreshing? && s.live == Some(s.callers[p].sent) == s.row.refresh
    requires s.lock.Held? && s.lock.owner == p
    ensures var t := Run(s, [Ask(p, Answered(expiresIn, rotates)), Write(p, true), Release(p, true)]);
      && t.callers == s.callers[p := Finished(AccessToken(s.minted + 1))] && t.lock.Free? && t.clock == s.clock
      && t.row.access == Some(s.minted + 1) && t.row.refresh == t.live && t.intact == s.intact
      && t.row.expiresAt == Some(ExpiresAt(s.clock, expiresIn)) && t.row.keyVersion == CURRENT_KEY_VERSION
      && (t.row.status.Revoked? ==> s.row.status.Revoked?)
  {
    var granted, grant := Granting(s, p, expiresIn, rotates);
    var done := WritingReleases(granted, p);
    RunThree(s, Ask(p, Answered(expiresIn, rotates)), Write(p, true), Release(p, true));
  }

  lemma CallParts(s: World, p: nat, expiresIn: Option<nat>, rotates: bool)
    ensures Run(s, Call(p, expiresIn, rotates))
         == Run(Run(s, [Start(p), TryLock(p), Reread(p)]),
                [Ask(p, Answered(expiresIn, rotates)), Write(p, true), Release(p, true)])
  {
    var asking := [Start(p), TryLock(p), Reread(p)];
    var rest := [Ask(p, Answered(expiresIn, rotates)), Write(p, true), Release(p, true)];
    RunConcat(s, asking, rest);
    assert asking + rest == Call(p, expiresIn, rotates);
  }

  lemma WholeCall(s: World, p: nat, expiresIn: Option<nat>, rotates: bool) returns (t: World)
    requires Fresh(s) && !Usable(s.row, s.clock)
    ensures t == Run(s, Call(p, expiresIn, rotates))
    ensures t.callers == map[p := Finished(AccessToken(s.minted + 1))] && t.lock.Free? && t.clock == s.clock
    ensures t.row.access == Some(s.minted + 1) && t.row.refresh == t.live && t.intact
    ensures t.row.expiresAt == Some(ExpiresAt(s.clock, expiresIn)) && t.row.keyVersion == CURRENT_KEY_VERSION
    ensures !t.row.status.Revoked?
  {
    CallParts(s, p, expiresIn, rotates);
    CallAsks(s, p);
    var asked := Run(s, [Start(p), TryLock(p), Reread(p)]);
    CallAnswered(asked, p, expiresIn, rotates);
    t := Run(s, Call(p, expiresIn, rotates));
  }

  /** A caller is answered at once, with the stored token, exactly when the mailbox is not revoked
      and the token lasts more than five minutes and was encrypted with the current key. */
  lemma StoredTokenIsUsed(s: World, p: nat, token: nat)
    requires p !in s.callers
    ensures Step(s, Start(p)).callers[p] == Finished(AccessToken(token)) <==>
      && !s.row.status.Revoked? && s.row.access == Some(token) && s.row.keyVersion == CURRENT_KEY_VERSION
      && s.row.expiresAt.Some? && s.row.expiresAt.value > s.clock + 5 * 60 * 1_000
  {}

  lemma NextCall(s: World, q: nat, token: nat)
    requires q !in s.callers && s.row.access == Some(token) && !s.row.status.Revoked?
    ensures Step(s, Start(q)).callers[q] == Finished(AccessToken(token)) <==> Usable(s.row, s.clock)
  {}

  /** A call nobody disturbs, on a stale row: it hands out the token it was granted, leaves the
      lock free and the row holding that token and the live refresh token. A second call at
      the same moment reuses it exactly when its lifetime was stated and exceeds the skew. */
  lemma UndisturbedCall(s: World, p: nat, q: nat, expiresIn: Option<nat>, rotates: bool)
    requires Fresh(s) && !Usable(s.row, s.clock) && p != q
    ensures var t := Run(s, Call(p, expiresIn, rotates));
      && p in t.callers && t.callers[p] == Finished(AccessToken(s.minted + 1))
      && t.lock.Free? && t.row.access == Some(s.minted + 1) && t.row.refresh == t.live && t.intact
      && (Step(t, Start(q)).callers[q] == Finished(AccessToken(s.minted + 1))
          <==> expiresIn.Some? && expiresIn.value * 1_000 > REFRESH_SKEW_MS)
  {
    var t := WholeCall(s, p, expiresIn, rotates);
    NextCall(t, q, s.minted + 1);
  }

  /** The same call when the provider refuses the token or cannot be reached: the mailbox is
      marked revoked and its tokens dropped, or nothing is changed. */
  lemma {:induction false} FailedCall(s: World, p: nat, answer: Answer)
    requires s.lock.Free? && s.callers == map[] && !Usable(s.row, s.clock) && !s.row.status.Revoked? && s.row.refresh.Some?
    requires answer.Unreachable? || s.live != s.row.refresh
    ensures var t := Run(s, [Start(p), TryLock(p), Reread(p), Ask(p, answer)] + [MarkRevoked(p, true), Release(p, true)]);
      && t.lock.Free? && t.refreshes == s.refreshes && t.live == s.live
      && (answer.Unreachable? ==> t.callers == map[p := Finished(RefreshFailed)] && t.row == s.row)
      && (!answer.Unreachable? ==>
            t.callers == map[p := Finished(MailAccountRevoked)]
            && t.row.status.Revoked? && t.row.access.None? && t.row.refresh.None? && t.row.expiresAt.None?)
  {
    var locked := ExtendOne(s, ExtendOne(s, [], Start(p)), TryLock(p));
    assert Run(s, locked).callers == map[p := Locked(s.clock)];
    var asking := ExtendOne(s, locked, Reread(p));
    assert Run(s, asking).callers == map[p := Refreshing(s.clock, s.row.refresh.value, s.clock, s.row.status)];
    var asked := ExtendOne(s, asking, Ask(p, answer));
    assert asked == [Start(p), TryLock(p), Reread(p), Ask(p, answer)];
    var pc := if answer.Unreachable? then Leaving(s.clock, RefreshFailed) else Refused(s.clock);
    assert Run(s, asked).callers == map[p := pc];
    var marked := ExtendOne(s, asked, MarkRevoked(p, true));
    assert Run(s, marked).callers[p].Leaving?;
    var released := ExtendOne(s, marked, Release(p, true));
    assert released == asked + [MarkRevoked(p, true), Release(p, true)];
  }

  /** A caller that waited and finds the row fresh when it gets the lock: it is given exactly
      the row's token, the provider is not asked, and the row stays as it is. */
  lemma WaiterReuses(s: World, p: nat)
    requires p in s.callers && s.callers[p].Waiting? && Available(s.lock, s.clock)
    requires !s.row.status.Revoked? && Usable(s.row, s.clock)
    ensures Run(s, [TryLock(p), Reread(p), Release(p, true)])
         == s.(lock := Free, callers := s.callers[p := Finished(AccessToken(s.row.access.value))])
  {
    var locked := ExtendOne(s, [], TryLock(p));
    assert Run(s, locked).callers[p] == Locked(s.clock);
    var read := ExtendOne(s, locked, Reread(p));
    assert Run(s, read).callers[p] == Leaving(s.clock, AccessToken(s.row.access.value));
    var released := ExtendOne(s, read, Release(p, true));
    assert released == [TryLock(p), Reread(p), Release(p, true)];
  }

  // ---- The procedures ----

  predicate ByOthers(e: Event, me: nat) {
    match e
    case Tick(_) => true
    case Withdraw => true
    case SyncStatus(_) => true
    case Start(p) => p != me
    case TryLock(p) => p != me
    case Reread(p) => p != me
    case Ask(p, _) => p != me
    case Write(p, _) => p != me
    case MarkRevoked(p, _) => p != me
    case Release(p, _) => p != me
    case Crash(p) => p != me
  }

  predicate AllByOthers(events: seq<Event>, me: nat) {
    forall e | e in events :: ByOthers(e, me)
  }

  lemma {:induction false} OthersLeaveMe(s: World, events: seq<Event>, me: nat)
    requires AllByOthers(events, me)
    ensures me in Run(s, events).callers <==> me in s.callers
    ensures me in s.callers ==> Run(s, events).callers[me] == s.callers[me]
    ensures Run(s, events).clock >= s.clock
    decreases events
  {
    if events != [] {
      assert ByOthers(events[0], me);
      assert forall e | e in events[1..] :: e in events;
      OthersLeaveMe(Step(s, events[0]), events[1..], me);
    }
  }

  predicate Quiet(gaps: seq<seq<Event>>) {
    forall i | 0 <= i < |gaps| :: gaps[i] == []
  }

  predicate NeedsRefresh(row: Row, now: nat) {
    !row.status.Revoked? && !Usable(row, now)
  }

  function Lifetime(answer: Answer): Option<nat> {
    if answer.Unreachable? then None else answer.expiresIn
  }

  /** How a section on a stale row ends when nobody else does anything: by the stored refresh
      token, the provider's answer to it, and whether the row could be written. */
  predicate SectionResult(was: Row, row: Row, live: Option<nat>, answer: Answer, ok: bool, until: nat, outcome: Outcome) {
    if was.refresh.None? then outcome == MailAccountRevoked && row == was
    else if answer.Unreachable? then outcome == RefreshFailed && row == was
    else if was.refresh != live then
      if ok then outcome == MailAccountRevoked && row == Row(Revoked, None, None, None, was.keyVersion)
      else outcome == RefreshFailed && row == was
    else if answer.AnswerLost? || !ok then outcome == RefreshFailed && row == was
    else
      && outcome.AccessToken? && row.access == Some(outcome.token) && row.expiresAt == Some(until)
      && row.keyVersion == CURRENT_KEY_VERSION && (!answer.rotates ==> row.refresh == was.refresh)
      && row.status == (if was.status.Failing? then Pending else was.status)
  }

  /** The lock, the row and everybody who works on them. */
  class Mailbox {
    var clock: nat
    var lock: Lock
    var row: Row
    var callers: map<nat, Pc>
    var live: Option<nat>
    var minted: nat
    var refreshes: seq<Refresh>
    var intact: bool

    function State(): World
      reads this
    {
      World(clock, lock, row, callers, live, minted, refreshes, intact)
    }

    constructor (row: Row, live: nat)
      requires row.refresh == Some(live) && !row.status.Revoked?
      ensures Fresh(State()) && this.row == row
    {
      clock, lock, callers, minted, refreshes, intact := 0, Free, map[], live, [], true;
      this.row, this.live := row, Some(live);
    }

    /** Whatever the rest of the system does while `me` awaits. */
    method Others(me: nat, events: seq<Event>)
      requires AllByOthers(events, me)
      modifies this
      ensures State() == Run(old(State()), events)
      ensures me in callers <==> me in old(callers)
      ensures me in callers ==> callers[me] == old(callers[me])
      ensures clock >= old(clock)
    {
      OthersLeaveMe(State(), events, me);
      assert events[0..] == events;
      for i := 0 to |events|
        invariant Run(State(), events[i..]) == Run(old(State()), events)
      {
        assert events[i..][1..] == events[i + 1..];
        Apply(events[i]);
      }
      assert events[|events|..] == [];
    }

    method Apply(e: Event)
      modifies this
      ensures State() == Step(old(State()), e)
    {
      var next := Step(State(), e);
      clock, lock, row, callers := next.clock, next.lock, next.row, next.callers;
      live, minted, refreshes, intact := next.live, next.minted, next.refreshes, next.intact;
    }

    /** The acquiring loop of `withMutex`: try, give up at the deadline, sleep, try again.
        `naps(k)` is what happens during the k-th sleep. */
    method Acquire(me: nat, naps: nat -> seq<Event>) returns (acquired: bool, trace: seq<Event>)
      requires me in callers && callers[me].Waiting?
      requires forall k: nat :: AllByOthers(naps(k), me)
      requires forall k: nat, s: World :: Run(s, naps(k)).clock >= s.clock + RETRY_DELAY_MS
      modifies this
      ensures State() == Run(old(State()), trace)
      ensures me in callers && callers[me] == if acquired then Locked(clock) else Finished(LockTimeout)
      ensures acquired ==> lock == Held(me, clock + MUTEX_TTL_MS)
      ensures Available(old(lock), old(clock)) ==>
        acquired && row == old(row) && clock == old(clock) && live == old(live) && refreshes == old(refreshes)
      ensures !acquired ==> clock >= old(callers[me].deadline) && !Available(lock, clock)
    {
      var start := State();
      var deadline := callers[me].deadline;
      trace := [];
      var k := 0;
      while true
        invariant State() == Run(start, trace)
        invariant me in callers && callers[me] == Waiting(deadline)
        invariant Available(old(lock), old(clock)) ==> k == 0 && State() == start
        decreases if clock > deadline then 0 else deadline - clock + 1
      {
        trace := ExtendOne(start, trace, TryLock(me));
        if Available(lock, clock) {
          lock, callers := Held(me, clock + MUTEX_TTL_MS), callers[me := Locked(clock)];
          return true, trace;
        }
        if clock >= deadline {
          callers := callers[me := Finished(LockTimeout)];
          return false, trace;
        }
        trace := Extend(start, trace, naps(k));
        Others(me, naps(k));
        k := k + 1;
      }
    }

    /** The re-read under the lock: what it decides, without asking the provider yet. */
    method Recheck(me: nat)
      requires me in callers && callers[me].Locked?
      modifies this`callers
      ensures State() == Step(old(State()), Reread(me))
      ensures me in callers && callers == old(callers)[me := callers[me]]
      ensures row.status.Revoked? ==> callers[me] == Leaving(old(callers)[me].since, MailAccountRevoked)
      ensures !row.status.Revoked? && Usable(row, clock) ==>
        callers[me] == Leaving(old(callers)[me].since, AccessToken(row.access.value))
      ensures !row.status.Revoked? && !Usable(row, clock) && row.refresh.None? ==>
        callers[me] == Leaving(old(callers)[me].since, MailAccountRevoked)
      ensures !row.status.Revoked? && !Usable(row, clock) && row.refresh.Some? ==>
        callers[me] == Refreshing(old(callers)[me].since, row.refresh.value, clock, row.status)
    {
      var since := callers[me].since;
      if row.status.Revoked? {
        callers := callers[me := Leaving(since, MailAccountRevoked)];
      } else if Usable(row, clock) {
        callers := callers[me := Leaving(since, AccessToken(row.access.value))];
      } else if row.refresh.None? {
        callers := callers[me := Leaving(since, MailAccountRevoked)];
      } else {
        callers := callers[me := Refreshing(since, row.refresh.value, clock, row.status)];
      }
    }

    /** The write that ends a section: the new tokens, or the revocation. */
    method Settle(me: nat, ok: bool) returns (trace: seq<Event>)
      requires me in callers && (callers[me].Granted? || callers[me].Refused? || callers[me].Leaving?)
      modifies this
      ensures State() == Run(old(State()), trace)
      ensures me in callers && callers[me].Leaving? && lock == old(lock)
      ensures var pc := old(callers)[me]; pc.Granted? && ok ==>
        callers[me].outcome == AccessToken(pc.grant.access) && row.access == Some(pc.grant.access)
        && row.expiresAt == Some(pc.grant.expiresAt) && row.keyVersion == CURRENT_KEY_VERSION
        && row.refresh == (if pc.grant.refresh.Some? then pc.grant.refresh else old(row).refresh)
        && row.status == (if pc.status.Failing? then Pending else old(row).status)
      ensures old(callers)[me].Refused? && ok ==>
        callers[me].outcome == MailAccountRevoked && row == Row(Revoked, None, None, None, old(row).keyVersion)
      ensures !ok || old(callers)[me].Leaving? ==> row == old(row)
      ensures !ok && !old(callers)[me].Leaving? ==> callers[me].outcome == RefreshFailed
      ensures old(callers)[me].Leaving? ==> callers[me] == old(callers)[me]
    {
      trace := [];
      var pc := callers[me];
      if pc.Granted? {
        trace := ExtendOne(State(), trace, Write(me, ok));
        if ok {
          row := Row(if pc.status.Failing? then Pending else row.status, Some(pc.grant.access),
                     if pc.grant.refresh.Some? then pc.grant.refresh else row.refresh,
                     Some(pc.grant.expiresAt), CURRENT_KEY_VERSION);
          callers := callers[me := Leaving(pc.since, AccessToken(pc.grant.access))];
        } else {
          intact := false;
          callers := callers[me := Leaving(pc.since, RefreshFailed)];
        }
      } else if pc.Refused? {
        trace := ExtendOne(State(), trace, MarkRevoked(me, ok));
        if ok { row := Row(Revoked, None, None, None, row.keyVersion); }
        callers := callers[me := Leaving(pc.since, if ok then MailAccountRevoked else RefreshFailed)];
      }
    }

    /** The section itself: re-read, refresh, write. */
    method Section(me: nat, answer: Answer, ok: bool, inFlight: seq<Event>, beforeWrite: seq<Event>)
      returns (trace: seq<Event>)
      requires me in callers && callers[me].Locked?
      requires AllByOthers(inFlight, me) && AllByOthers(beforeWrite, me)
      modifies this
      ensures State() == Run(old(State()), trace)
      ensures me in callers && callers[me].Leaving?
      ensures !old(row).status.Revoked? && Usable(old(row), old(clock)) ==>
        callers[me].outcome == AccessToken(old(row).access.value) && row == old(row) && refreshes == old(refreshes)
      ensures inFlight == beforeWrite == [] && NeedsRefresh(old(row), old(clock)) ==>
        SectionResult(old(row), row, old(live), answer, ok, ExpiresAt(old(clock), Lifetime(answer)), callers[me].outcome)
    {
      var start := State();
      trace := ExtendOne(start, [], Reread(me));
      Recheck(me);
      if callers[me].Refreshing? {
        trace := Extend(start, trace, inFlight);
        Others(me, inFlight);
        trace := ExtendOne(start, trace, Ask(me, answer));
        Apply(Ask(me, answer));
        trace := Extend(start, trace, beforeWrite);
        Others(me, beforeWrite);
        var settled := Settle(me, ok);
        trace := Extend(start, trace, settled);
      }
    }

    /** `fn` under the lock, and the release that always follows. */
    method Guarded(me: nat, answer: Answer, ok: bool, reachable: bool, gaps: seq<seq<Event>>)
      returns (outcome: Outcome, trace: seq<Event>)
      requires me in callers && callers[me].Locked?
      requires |gaps| == 4 && forall i | 0 <= i < |gaps| :: AllByOthers(gaps[i], me)
      modifies this
      ensures State() == Run(old(State()), trace)
      ensures me in callers && callers[me] == Finished(outcome)
      ensures Quiet(gaps) && !old(row).status.Revoked? && Usable(old(row), old(clock)) ==>
        outcome == AccessToken(old(row).access.value) && row == old(row) && refreshes == old(refreshes)
      ensures Quiet(gaps) && NeedsRefresh(old(row), old(clock)) ==>
        SectionResult(old(row), row, old(live), answer, ok, ExpiresAt(old(clock), Lifetime(answer)), outcome)
    {
      var start := State();
      Others(me, gaps[0]);
      var worked := Section(me, answer, ok, gaps[1], gaps[2]);
      trace := Extend(start, gaps[0], worked);
      trace := Extend(start, trace, gaps[3]);
      Others(me, gaps[3]);
      trace := ExtendOne(start, trace, Release(me, reachable));
      outcome := callers[me].outcome;
      if reachable && lock.Held? && lock.owner == me { lock := Free; }
      callers := callers[me := Finished(outcome)];
    }

    /** `getAccessToken`: read, and if stale lock, re-read, refresh, write, release. The lists
        say what everybody else does at each await. */
    method GetAccessToken(me: nat, naps: nat -> seq<Event>, answer: Answer, ok: bool, reachable: bool, gaps: seq<seq<Event>>)
      returns (outcome: Outcome, trace: seq<Event>)
      requires me !in callers
      requires forall k: nat :: AllByOthers(naps(k), me)
      requires forall k: nat, s: World :: Run(s, naps(k)).clock >= s.clock + RETRY_DELAY_MS
      requires |gaps| == 4 && forall i | 0 <= i < |gaps| :: AllByOthers(gaps[i], me)
      modifies this
      ensures State() == Run(old(State()), trace)
      ensures me in callers && callers[me] == Finished(outcome)
      ensures old(row).status.Revoked? ==> outcome == MailAccountRevoked && row == old(row) && refreshes == old(refreshes)
      ensures !old(row).status.Revoked? && Usable(old(row), old(clock)) ==>
        outcome == AccessToken(old(row).access.value) && row == old(row) && refreshes == old(refreshes)
      ensures Quiet(gaps) && Available(old(lock), old(clock)) && NeedsRefresh(old(row), old(clock)) ==>
        SectionResult(old(row), row, old(live), answer, ok, ExpiresAt(old(clock), Lifetime(answer)), outcome)
    {
      var start := State();
      trace := ExtendOne(start, [], Start(me));
      if row.status.Revoked? {
        callers := callers[me := Finished(MailAccountRevoked)];
        return MailAccountRevoked, trace;
      }
      if Usable(row, clock) {
        outcome := AccessToken(row.access.value);
        callers := callers[me := Finished(outcome)];
        return;
      }
      callers := callers[me := Waiting(clock + MUTEX_WAIT_MS)];
      var acquired, polled := Acquire(me, naps);
      trace := Extend(start, trace, polled);
      if !acquired { return LockTimeout, trace; }
      var more;
      outcome, more := Guarded(me, answer, ok, reachable, gaps);
      trace := Extend(start, trace, more);
    }
  }
}
