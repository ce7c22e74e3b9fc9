/**
  The session ledger of the time tracker (App.tsx): the worker and task
  catalogs with the current selection and memo draft, the sessions in
  progress or on hold, and the finished log entries, most recent first.

  Every command is a pure transition.  The clock reading `now` and the fresh
  session id (`new Date()` and `Date.now()` in `handleStart`) are parameters, a
  confirmation dialog is the boolean `confirmed`, and the locale formatting of
  instants is the uninterpreted `Locale` argument of `Finish`.
 */
module Tracker {
  import opened Optional
  import opened Seqs
  import opened Duration
  import opened Sessions
  import Catalog

  /** The completion marker every log entry carries. */
  const Completed: string := "完了"

  datatype LogEntry = LogEntry(
    id: int,
    date: string,
    worker: string,
    task: string,
    memo: string,
    startTime: string,
    endTime: string,
    duration: Hms,
    holdingTime: Hms,
    status: string)

  /** `toLocaleDateString('ja-JP')` and the two-digit `toLocaleTimeString('ja-JP', …)`. */
  datatype Locale = Locale(date: int -> string, time: int -> string)

  datatype Ledger = Ledger(
    workers: seq<string>,
    tasks: seq<string>,
    selectedWorker: Option<string>,
    selectedTask: Option<string>,
    draftMemo: string,
    sessions: seq<Session>,
    logs: seq<LogEntry>)

  function SessionId(s: Session): int { s.id }

  /**
    JavaScript truthiness of a selection, as `handleStart` tests it: `null`
    and the empty string are falsy, every other string is truthy.
   */
  predicate Chosen(o: Option<string>): (b: bool)
    ensures b <==> o != None && o != Some("")
  {
    o.Some? && |o.value| > 0
  }

  // ---------------------------------------------------------------- views

  /** `activeSessions`: the sessions currently running, in ledger order. */
  function ActiveSessions(l: Ledger): (r: seq<Session>)
    ensures forall s :: s in r <==> s in l.sessions && s.status == Active
    ensures forall s: Session :: s.status == Active ==> multiset(r)[s] == multiset(l.sessions)[s]
    ensures IsSubsequence(r, l.sessions)
  {
    Filter(l.sessions, (s: Session) => s.status == Active)
  }

  /** `holdingSessions`: the sessions on hold, in ledger order. */
  function HoldingSessions(l: Ledger): (r: seq<Session>)
    ensures forall s :: s in r <==> s in l.sessions && s.status == Holding
    ensures forall s: Session :: s.status == Holding ==> multiset(r)[s] == multiset(l.sessions)[s]
    ensures IsSubsequence(r, l.sessions)
  {
    Filter(l.sessions, (s: Session) => s.status == Holding)
  }

  /** Every session shows in exactly one of the two lists. */
  lemma {:induction false} ViewsPartition(l: Ledger)
    ensures |ActiveSessions(l)| + |HoldingSessions(l)| == |l.sessions|
    ensures forall s :: s in l.sessions ==> (s in ActiveSessions(l) <==> s !in HoldingSessions(l))
    decreases |l.sessions|
  {
    if |l.sessions| > 0 {
      var rest := l.(sessions := l.sessions[1..]);
      ViewsPartition(rest);
      var s := l.sessions[0];
      if s.status == Active {
        assert ActiveSessions(l) == [s] + ActiveSessions(rest);
        assert HoldingSessions(l) == HoldingSessions(rest);
      } else {
        assert ActiveSessions(l) == ActiveSessions(rest);
        assert HoldingSessions(l) == [s] + HoldingSessions(rest);
      }
    }
  }

  // ------------------------------------------------------------- commands

  /**
    `handleStart`: without a chosen worker and task nothing changes (the user
    is alerted).  Otherwise exactly one fresh active session is appended,
    carrying the memo draft, which is then cleared.
   */
  function Start(l: Ledger, now: int, id: int): (r: Ledger)
    ensures !(Chosen(l.selectedWorker) && Chosen(l.selectedTask)) ==> r == l
    ensures Chosen(l.selectedWorker) && Chosen(l.selectedTask) ==>
      && r == l.(sessions := r.sessions, draftMemo := "")
      && |r.sessions| == |l.sessions| + 1
      && r.sessions[..|l.sessions|] == l.sessions
      && var s := r.sessions[|l.sessions|];
         && s.id == id
         && s.worker == l.selectedWorker.value && s.task == l.selectedTask.value
         && s.memo == l.draftMemo
         && s.initialStartTime == now && s.currentStartTime == now
         && s.totalElapsedTime == 0 && s.status == Active
  {
    if !Chosen(l.selectedWorker) || !Chosen(l.selectedTask) then l
    else
      var s := NewSession(id, l.selectedWorker.value, l.selectedTask.value, l.draftMemo, now);
      l.(sessions := l.sessions + [s], draftMemo := "")
  }

  /**
    `handleHold`: an unknown id changes nothing.  Otherwise the first session
    with that id is held at `now`; any other session with the same id gets
    the same status and total, computed from the first, and keeps its other
    fields; the sessions with other ids are untouched.
   */
  function Hold(l: Ledger, id: int, now: int): (r: Ledger)
    ensures IndexOf(l.sessions, id).None? ==> r == l
    ensures IndexOf(l.sessions, id).Some? ==>
      var k := IndexOf(l.sessions, id).value;
      && r == l.(sessions := r.sessions)
      && |r.sessions| == |l.sessions|
      && r.sessions[k] == HeldAt(l.sessions[k], now)
      && (forall i :: 0 <= i < |l.sessions| && l.sessions[i].id != id ==> r.sessions[i] == l.sessions[i])
      && (forall i :: 0 <= i < |l.sessions| && l.sessions[i].id == id ==>
            r.sessions[i] == l.sessions[i].(status := Holding,
                                            totalElapsedTime := r.sessions[k].totalElapsedTime))
  {
    match IndexOf(l.sessions, id)
    case None => l
    case Some(k) => l.(sessions := UpdateSession(l.sessions, id, HoldPatch(l.sessions[k], now)))
  }

  /**
    `handleResume`: an unknown id changes nothing.  Otherwise every session
    with that id becomes active from `now`, with its totals, origin, worker,
    task and memo as they were.
   */
  function Resume(l: Ledger, id: int, now: int): (r: Ledger)
    ensures IndexOf(l.sessions, id).None? ==> r == l
    ensures r == l.(sessions := r.sessions)
    ensures |r.sessions| == |l.sessions|
    ensures forall i :: 0 <= i < |l.sessions| && l.sessions[i].id != id ==> r.sessions[i] == l.sessions[i]
    ensures forall i :: 0 <= i < |l.sessions| && l.sessions[i].id == id ==>
      r.sessions[i] == ResumedAt(l.sessions[i], now)
  {
    match IndexOf(l.sessions, id)
    case None => l
    case Some(_) => l.(sessions := UpdateSession(l.sessions, id, ResumePatch(now)))
  }

  /** The log entry `handleFinish` records for session `s` finished at `now`. */
  function LogOf(s: Session, now: int, locale: Locale): (e: LogEntry)
    ensures e.id == s.id && e.worker == s.worker && e.task == s.task && e.memo == s.memo
    ensures e.date == locale.date(s.initialStartTime)
    ensures e.startTime == locale.time(s.initialStartTime) && e.endTime == locale.time(now)
    ensures e.status == Completed
    ensures Closing(s, now).elapsed >= 0 ==> IsBreakdownOf(e.duration, Closing(s, now).elapsed / 1000)
    ensures Closing(s, now).holding >= 0 ==> IsBreakdownOf(e.holdingTime, Closing(s, now).holding / 1000)
  {
    var totals := Closing(s, now);
    LogEntry(
      s.id,
      locale.date(s.initialStartTime),
      s.worker,
      s.task,
      s.memo,
      locale.time(s.initialStartTime),
      locale.time(now),
      FinishBreakdown(totals.elapsed),
      FinishBreakdown(totals.holding),
      Completed)
  }

  /**
    `handleFinish`: an unknown id changes nothing.  Otherwise every session
    with that id leaves the ledger, the others keep their order, and one log
    entry for the first such session is put in front of the logs.
   */
  function Finish(l: Ledger, id: int, now: int, locale: Locale): (r: Ledger)
    ensures IndexOf(l.sessions, id).None? ==> r == l
    ensures IndexOf(l.sessions, id).Some? ==>
      var s := l.sessions[IndexOf(l.sessions, id).value];
      && r == l.(sessions := r.sessions, logs := r.logs)
      && (forall x :: x in r.sessions <==> x in l.sessions && x.id != id)
      && (forall x: Session :: x.id != id ==> multiset(r.sessions)[x] == multiset(l.sessions)[x])
      && IsSubsequence(r.sessions, l.sessions)
      && |r.logs| == |l.logs| + 1
      && r.logs[1..] == l.logs
      && r.logs[0] == LogOf(s, now, locale)
  {
    match IndexOf(l.sessions, id)
    case None => l
    case Some(k) =>
      var s := l.sessions[k];
      l.(logs := [LogOf(s, now, locale)] + l.logs,
         sessions := Filter(l.sessions, (x: Session) => x.id != id))
  }

  /** `handleUpdateMemo`: the sessions with that id get the new memo; nothing else changes. */
  function UpdateMemo(l: Ledger, id: int, memo: string): (r: Ledger)
    ensures r == l.(sessions := r.sessions)
    ensures |r.sessions| == |l.sessions|
    ensures forall i :: 0 <= i < |l.sessions| && l.sessions[i].id != id ==> r.sessions[i] == l.sessions[i]
    ensures forall i :: 0 <= i < |l.sessions| && l.sessions[i].id == id ==>
      r.sessions[i].memo == memo && r.sessions[i].(memo := l.sessions[i].memo) == l.sessions[i]
  {
    l.(sessions := UpdateSession(l.sessions, id, MemoPatch(memo)))
  }

  /** `handleDeleteSession`: once confirmed, drops the sessions with that id and nothing else. */
  function DeleteSession(l: Ledger, id: int, confirmed: bool): (r: Ledger)
    ensures !confirmed ==> r == l
    ensures r == l.(sessions := r.sessions)
    ensures confirmed ==> forall x :: x in r.sessions <==> x in l.sessions && x.id != id
    ensures confirmed ==> forall x: Session :: x.id != id ==> multiset(r.sessions)[x] == multiset(l.sessions)[x]
    ensures IsSubsequence(r.sessions, l.sessions)
  {
    if confirmed then l.(sessions := Filter(l.sessions, (x: Session) => x.id != id))
    else
      SubsequenceOfItself(l.sessions);
      l
  }

  /** `handleDeleteLog`: once confirmed, drops the log entries with that id and nothing else. */
  function DeleteLog(l: Ledger, id: int, confirmed: bool): (r: Ledger)
    ensures !confirmed ==> r == l
    ensures r == l.(logs := r.logs)
    ensures confirmed ==> forall e :: e in r.logs <==> e in l.logs && e.id != id
    ensures confirmed ==> forall e: LogEntry :: e.id != id ==> multiset(r.logs)[e] == multiset(l.logs)[e]
    ensures IsSubsequence(r.logs, l.logs)
  {
    if confirmed then l.(logs := Filter(l.logs, (e: LogEntry) => e.id != id))
    else
      SubsequenceOfItself(l.logs);
      l
  }

  /** `handleClearAllLogs`: once confirmed, empties the log and nothing else. */
  function ClearAllLogs(l: Ledger, confirmed: bool): (r: Ledger)
    ensures !confirmed ==> r == l
    ensures confirmed ==> r == l.(logs := []) && |r.logs| == 0
  {
    if confirmed then l.(logs := []) else l
  }

  /** `addWorker`: the name is listed afterwards, once. */
  function AddWorker(l: Ledger, name: string): (r: Ledger)
    ensures r == l.(workers := r.workers)
    ensures name in r.workers
    ensures name in l.workers ==> r == l
    ensures name !in l.workers ==> r.workers == l.workers + [name]
    ensures r.workers[..|l.workers|] == l.workers && |r.workers| <= |l.workers| + 1
    ensures NoDuplicates(l.workers) ==> NoDuplicates(r.workers)
  {
    l.(workers := Catalog.AddName(l.workers, name))
  }

  /** `addTask`: the name is listed afterwards, once. */
  function AddTask(l: Ledger, name: string): (r: Ledger)
    ensures r == l.(tasks := r.tasks)
    ensures name in r.tasks
    ensures name in l.tasks ==> r == l
    ensures name !in l.tasks ==> r.tasks == l.tasks + [name]
    ensures r.tasks[..|l.tasks|] == l.tasks && |r.tasks| <= |l.tasks| + 1
    ensures NoDuplicates(l.tasks) ==> NoDuplicates(r.tasks)
  {
    l.(tasks := Catalog.AddName(l.tasks, name))
  }

  /**
    `handleDeleteWorker`: once confirmed, the name leaves the catalog and, if
    it was the selected worker, the selection is cleared.
   */
  function DeleteWorker(l: Ledger, name: string, confirmed: bool): (r: Ledger)
    ensures !confirmed ==> r == l
    ensures r == l.(workers := r.workers, selectedWorker := r.selectedWorker)
    ensures confirmed ==> name !in r.workers && r.selectedWorker != Some(name)
    ensures confirmed ==> forall x :: x in r.workers <==> x in l.workers && x != name
    ensures confirmed ==> forall x :: x != name ==> multiset(r.workers)[x] == multiset(l.workers)[x]
    ensures IsSubsequence(r.workers, l.workers)
    ensures confirmed && l.selectedWorker == Some(name) ==> r.selectedWorker == None
    ensures l.selectedWorker != Some(name) ==> r.selectedWorker == l.selectedWorker
  {
    if !confirmed then
      SubsequenceOfItself(l.workers);
      l
    else
      l.(selectedWorker := if l.selectedWorker == Some(name) then None else l.selectedWorker,
         workers := Catalog.RemoveName(l.workers, name))
  }

  /**
    `handleDeleteTask`: once confirmed, the name leaves the catalog and, if it
    was the selected task, the selection is cleared.
   */
  function DeleteTask(l: Ledger, name: string, confirmed: bool): (r: Ledger)
    ensures !confirmed ==> r == l
    ensures r == l.(tasks := r.tasks, selectedTask := r.selectedTask)
    ensures confirmed ==> name !in r.tasks && r.selectedTask != Some(name)
    ensures confirmed ==> forall x :: x in r.tasks <==> x in l.tasks && x != name
    ensures confirmed ==> forall x :: x != name ==> multiset(r.tasks)[x] == multiset(l.tasks)[x]
    ensures IsSubsequence(r.tasks, l.tasks)
    ensures confirmed && l.selectedTask == Some(name) ==> r.selectedTask == None
    ensures l.selectedTask != Some(name) ==> r.selectedTask == l.selectedTask
  {
    if !confirmed then
      SubsequenceOfItself(l.tasks);
      l
    else
      l.(selectedTask := if l.selectedTask == Some(name) then None else l.selectedTask,
         tasks := Catalog.RemoveName(l.tasks, name))
  }
}
