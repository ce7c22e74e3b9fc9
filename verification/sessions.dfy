/**
  One tracked unit of work and the per-session effect of the ledger's
  commands (App.tsx).  Instants and durations are integer milliseconds.

  The commands do not look at a session's status before changing it: holding
  a session that is already holding, resuming one that is already active, or
  finishing one that is holding are all accepted.  The user interface only
  offers hold and finish on active sessions and resume on holding ones; the
  lemmas at the end of this module show that under that discipline the
  accounting is exact, and what goes wrong outside it.
 */
module Sessions {
  import opened Optional

  datatype Status = Active | Holding

  datatype Session = Session(
    id: int,
    worker: string,
    task: string,
    memo: string,
    initialStartTime: int,
    currentStartTime: int,
    totalElapsedTime: int,
    status: Status)

  /**
    The partial update `updateSession` merges into a session: each present
    field replaces the session's own, absent fields are left alone.  Only the
    fields the commands ever pass are representable.
   */
  datatype Patch = Patch(
    status: Option<Status>,
    currentStartTime: Option<int>,
    totalElapsedTime: Option<int>,
    memo: Option<string>)

  function Override<T>(o: Option<T>, current: T): T {
    match o
    case Some(v) => v
    case None => current
  }

  /** `{ ...s, ...updates }`: a patch never touches a session's identity or origin. */
  function ApplyPatch(s: Session, p: Patch): (r: Session)
    ensures r.id == s.id && r.worker == s.worker && r.task == s.task
    ensures r.initialStartTime == s.initialStartTime
    ensures p.status.Some? ==> r.status == p.status.value
    ensures p.status.None? ==> r.status == s.status
    ensures p.currentStartTime.Some? ==> r.currentStartTime == p.currentStartTime.value
    ensures p.currentStartTime.None? ==> r.currentStartTime == s.currentStartTime
    ensures p.totalElapsedTime.Some? ==> r.totalElapsedTime == p.totalElapsedTime.value
    ensures p.totalElapsedTime.None? ==> r.totalElapsedTime == s.totalElapsedTime
    ensures p.memo.Some? ==> r.memo == p.memo.value
    ensures p.memo.None? ==> r.memo == s.memo
    ensures p == Patch(None, None, None, None) ==> r == s
  {
    s.(status := Override(p.status, s.status),
       currentStartTime := Override(p.currentStartTime, s.currentStartTime),
       totalElapsedTime := Override(p.totalElapsedTime, s.totalElapsedTime),
       memo := Override(p.memo, s.memo))
  }

  /**
    `updateSession`: every session carrying `id` receives the patch; every
    other session, and the order of all of them, is left as it was.
   */
  function UpdateSession(ss: seq<Session>, id: int, p: Patch): (r: seq<Session>)
    ensures |r| == |ss|
    ensures forall i :: 0 <= i < |ss| ==> r[i].id == ss[i].id
    ensures forall i :: 0 <= i < |ss| && ss[i].id != id ==> r[i] == ss[i]
    ensures forall i :: 0 <= i < |ss| && ss[i].id == id ==> r[i] == ApplyPatch(ss[i], p)
  {
    if |ss| == 0 then []
    else
      var head := if ss[0].id == id then ApplyPatch(ss[0], p) else ss[0];
      [head] + UpdateSession(ss[1..], id, p)
  }

  /** `sessions.find(s => s.id === id)`, as a position: the first session carrying `id`. */
  function IndexOf(ss: seq<Session>, id: int): (r: Option<nat>)
    ensures r.None? <==> forall i :: 0 <= i < |ss| ==> ss[i].id != id
    ensures r.Some? ==> r.value < |ss| && ss[r.value].id == id
    ensures r.Some? ==> forall j :: 0 <= j < r.value ==> ss[j].id != id
  {
    if |ss| == 0 then None
    else if ss[0].id == id then Some(0)
    else
      match IndexOf(ss[1..], id)
      case None => None
      case Some(k) => Some(k + 1)
  }

  /**
    The active time a session has accumulated by instant `t`: the stored
    total, plus the running interval when the session is active.  This is the
    quantity every command is meant to keep track of.
   */
  function Accrued(s: Session, t: int): int {
    s.totalElapsedTime + (if s.status == Active then t - s.currentStartTime else 0)
  }

  /** The session `handleStart` creates. */
  function NewSession(id: int, worker: string, task: string, memo: string, now: int): (r: Session)
    ensures r.id == id && r.worker == worker && r.task == task && r.memo == memo
    ensures r.status == Active
    ensures r.initialStartTime == now && r.currentStartTime == now && r.totalElapsedTime == 0
    ensures forall t :: Accrued(r, t) == t - now
  {
    Session(id, worker, task, memo, now, now, 0, Active)
  }

  /**
    The patch `handleHold` builds from the session it found: it marks the
    session holding and adds the interval since its last start to its total,
    whatever its status, leaving the last start and the memo alone.
   */
  function HoldPatch(s: Session, now: int): (p: Patch)
    ensures ApplyPatch(s, p)
         == s.(status := Holding, totalElapsedTime := s.totalElapsedTime + (now - s.currentStartTime))
  {
    Patch(Some(Holding), None, Some(s.totalElapsedTime + (now - s.currentStartTime)), None)
  }

  /**
    The patch `handleResume` applies: any session becomes active from `now`
    and keeps its total and memo.
   */
  function ResumePatch(now: int): (p: Patch)
    ensures forall s :: ApplyPatch(s, p) == s.(status := Active, currentStartTime := now)
  {
    Patch(Some(Active), Some(now), None, None)
  }

  /** The patch `handleUpdateMemo` applies: it replaces the memo of any session and nothing else. */
  function MemoPatch(memo: string): (p: Patch)
    ensures forall s :: ApplyPatch(s, p) == s.(memo := memo)
  {
    Patch(None, None, None, Some(memo))
  }

  /**
    A session after `handleHold` at `now`.  Whatever the status, the interval
    since the last start is added to the total.  Holding an active session so
    freezes its accrued time at its value at `now`; holding one already held
    counts that interval a second time.
   */
  function HeldAt(s: Session, now: int): (r: Session)
    ensures r.status == Holding
    ensures r.id == s.id && r.worker == s.worker && r.task == s.task && r.memo == s.memo
    ensures r.initialStartTime == s.initialStartTime && r.currentStartTime == s.currentStartTime
    ensures r.totalElapsedTime == s.totalElapsedTime + (now - s.currentStartTime)
    ensures s.status == Active ==> forall t :: Accrued(r, t) == Accrued(s, now)
    ensures s.status == Holding ==> forall t :: Accrued(r, t) == Accrued(s, t) + (now - s.currentStartTime)
    ensures now >= s.currentStartTime ==> r.totalElapsedTime >= s.totalElapsedTime
  {
    ApplyPatch(s, HoldPatch(s, now))
  }

  /**
    A session after `handleResume` at `now`.  Resuming a holding session
    keeps its accrued time and restarts the clock; resuming an active one
    discards the interval that was running.
   */
  function ResumedAt(s: Session, now: int): (r: Session)
    ensures r.status == Active && r.currentStartTime == now
    ensures r.id == s.id && r.worker == s.worker && r.task == s.task && r.memo == s.memo
    ensures r.initialStartTime == s.initialStartTime && r.totalElapsedTime == s.totalElapsedTime
    ensures s.status == Holding ==> forall t :: Accrued(r, t) == Accrued(s, now) + (t - now)
    ensures s.status == Active ==> Accrued(r, now) == Accrued(s, now) - (now - s.currentStartTime)
  {
    ApplyPatch(s, ResumePatch(now))
  }

  /** A session after `handleUpdateMemo`: only the memo differs. */
  function WithMemo(s: Session, memo: string): (r: Session)
    ensures r.memo == memo
    ensures r.(memo := s.memo) == s
  {
    ApplyPatch(s, MemoPatch(memo))
  }

  /** The two millisecond totals `handleFinish` computes before breaking them down. */
  datatype Totals = Totals(elapsed: int, holding: int)

  /**
    `finalElapsedTime` and `totalHoldingTime` at finish.  Together they always
    cover the session's whole wall-clock span.  For an active session the
    elapsed part is exactly the accrued time; for a holding one the running
    interval is added although it was already folded in at the hold.
   */
  function Closing(s: Session, now: int): (r: Totals)
    ensures r.elapsed + r.holding == now - s.initialStartTime
    ensures s.status == Active ==> r.elapsed == Accrued(s, now)
    ensures s.status == Holding ==> r.elapsed == Accrued(s, now) + (now - s.currentStartTime)
  {
    var finalElapsed := s.totalElapsedTime + (now - s.currentStartTime);
    Totals(finalElapsed, (now - s.initialStartTime) - finalElapsed)
  }

  /**
    The invariant a session keeps at clock reading `t` when the commands are
    used as the interface offers them: it started no later than its last
    resume, which is not in the future, and it has accrued no more active
    time than wall-clock time has passed.
   */
  ghost predicate Sane(s: Session, t: int) {
    && s.initialStartTime <= s.currentStartTime <= t
    && 0 <= s.totalElapsedTime
    && Accrued(s, t) <= t - s.initialStartTime
  }

  lemma SaneLater(s: Session, t: int, later: int)
    requires Sane(s, t) && t <= later
    ensures Sane(s, later)
  {
  }

  lemma SaneHold(s: Session, t: int, now: int)
    requires Sane(s, t) && s.status == Active && t <= now
    ensures Sane(HeldAt(s, now), now)
  {
  }

  lemma SaneResume(s: Session, t: int, now: int)
    requires Sane(s, t) && s.status == Holding && t <= now
    ensures Sane(ResumedAt(s, now), now)
  {
  }

  lemma SaneMemo(s: Session, t: int, memo: string)
    requires Sane(s, t)
    ensures Sane(WithMemo(s, memo), t)
  {
  }

  /**
    Finishing a sane active session yields a non-negative worked time and a
    non-negative holding time, with no clamping needed.
   */
  lemma SaneClosing(s: Session, t: int, now: int)
    requires Sane(s, t) && s.status == Active && t <= now
    ensures 0 <= Closing(s, now).elapsed
    ensures 0 <= Closing(s, now).holding
  {
  }

  /** A session that was never held closes with exactly zero holding time. */
  lemma NeverHeldClosesWithoutHolding(id: int, worker: string, task: string, memo: string, start: int, now: int)
    ensures Closing(NewSession(id, worker, task, memo, start), now) == Totals(now - start, 0)
  {
  }

  /**
    Finishing a session that is holding counts its last active interval twice:
    started at `t0`, held at `t1`, finished at `t2`, the worked time comes out
    as `(t1 - t0) + (t2 - t0)` and the holding time as `-(t1 - t0)`.
   */
  lemma FinishWhileHoldingDoubleCounts(s: Session, t0: int, t1: int, t2: int)
    requires s == NewSession(s.id, s.worker, s.task, s.memo, t0)
    ensures Closing(HeldAt(s, t1), t2) == Totals((t1 - t0) + (t2 - t0), -(t1 - t0))
  {
  }

  /** One hold or resume, as the interface issues it, at a given instant. */
  datatype Event = HoldAt(at: int) | ResumeAt(at: int)

  function Step(s: Session, e: Event): Session {
    match e
    case HoldAt(t) => HeldAt(s, t)
    case ResumeAt(t) => ResumedAt(s, t)
  }

  /** The session after a series of holds and resumes. */
  function Replay(s: Session, evs: seq<Event>): Session
    decreases |evs|
  {
    if |evs| == 0 then s else Replay(Step(s, evs[0]), evs[1..])
  }

  /** Holds only of active sessions, resumes only of holding ones, alternating. */
  ghost predicate Alternates(status: Status, evs: seq<Event>)
    decreases |evs|
  {
    if |evs| == 0 then true
    else match evs[0]
      case HoldAt(_) => status == Active && Alternates(Holding, evs[1..])
      case ResumeAt(_) => status == Holding && Alternates(Active, evs[1..])
  }

  /** The status a session has after the events. */
  function FinalStatus(status: Status, evs: seq<Event>): Status
    decreases |evs|
  {
    if |evs| == 0 then status
    else FinalStatus(if evs[0].HoldAt? then Holding else Active, evs[1..])
  }

  /**
    The reference: the summed length of every active interval up to `end`,
    for a session that is active from `since` when `active` holds.
   */
  function ActiveTime(active: bool, since: int, evs: seq<Event>, end: int): int
    decreases |evs|
  {
    var running := if active then (if |evs| == 0 then end else evs[0].at) - since else 0;
    if |evs| == 0 then running
    else running + ActiveTime(evs[0].ResumeAt?, evs[0].at, evs[1..], end)
  }

  /**
    However many hold/resume cycles a session goes through, as long as they
    alternate, its accrued time is its starting total plus the sum of its
    active intervals.
   */
  lemma {:induction false} ReplayAccounts(s: Session, evs: seq<Event>, end: int)
    requires Alternates(s.status, evs)
    ensures Replay(s, evs).status == FinalStatus(s.status, evs)
    ensures Accrued(Replay(s, evs), end)
         == s.totalElapsedTime + ActiveTime(s.status == Active, s.currentStartTime, evs, end)
    decreases |evs|
  {
    if |evs| > 0 {
      var s1 := Step(s, evs[0]);
      ReplayAccounts(s1, evs[1..], end);
    }
  }

  /**
    So the worked time logged for a session that alternates holds and resumes
    from its start and is finished while active is exactly the sum of its
    active intervals, and its holding time is the rest of its span.
   */
  lemma FinishAfterCycles(s: Session, evs: seq<Event>, end: int)
    requires s.status == Active && s.totalElapsedTime == 0
    requires Alternates(Active, evs) && FinalStatus(Active, evs) == Active
    ensures Closing(Replay(s, evs), end).elapsed == ActiveTime(true, s.currentStartTime, evs, end)
    ensures Closing(Replay(s, evs), end).holding
         == (end - s.initialStartTime) - ActiveTime(true, s.currentStartTime, evs, end)
  {
    ReplayAccounts(s, evs, end);
    ReplayKeepsOrigin(s, evs);
  }

  lemma {:induction false} ReplayKeepsOrigin(s: Session, evs: seq<Event>)
    ensures Replay(s, evs).initialStartTime == s.initialStartTime
    ensures Replay(s, evs).id == s.id
    decreases |evs|
  {
    if |evs| > 0 {
      ReplayKeepsOrigin(Step(s, evs[0]), evs[1..]);
    }
  }
}
