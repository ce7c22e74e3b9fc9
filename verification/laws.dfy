/**
  Properties of the ledger that relate several commands: the invariant the
  commands keep when used as the interface offers them, the accuracy of the
  logged durations, inverses, idempotence, and the worked scenarios.
 */
module TrackerLaws {
  import opened Optional
  import opened Seqs
  import opened Duration
  import opened Sessions
  import opened Tracker
  import Catalog

  /**
    Well-formedness of a ledger: session ids are unique, neither catalog
    lists a name twice, and a selection is always a listed name.
   */
  ghost predicate Valid(l: Ledger) {
    && DistinctBy(l.sessions, SessionId)
    && NoDuplicates(l.workers)
    && NoDuplicates(l.tasks)
    && (l.selectedWorker.Some? ==> l.selectedWorker.value in l.workers)
    && (l.selectedTask.Some? ==> l.selectedTask.value in l.tasks)
  }

  /** A valid ledger whose every session is sane at clock reading `t`. */
  ghost predicate Sound(l: Ledger, t: int) {
    && Valid(l)
    && forall i :: 0 <= i < |l.sessions| ==> Sane(l.sessions[i], t)
  }

  /** No session in the ledger carries `id`. */
  ghost predicate FreshId(l: Ledger, id: int) {
    forall i :: 0 <= i < |l.sessions| ==> l.sessions[i].id != id
  }

  /** Every session carrying `id` has the given status. */
  ghost predicate AllWithIdAre(l: Ledger, id: int, status: Status) {
    forall i :: 0 <= i < |l.sessions| && l.sessions[i].id == id ==> l.sessions[i].status == status
  }

  /** With unique ids, the first session carrying `id` is the only one. */
  lemma OnlyMatch(l: Ledger, id: int, k: nat)
    requires DistinctBy(l.sessions, SessionId)
    requires IndexOf(l.sessions, id) == Some(k)
    ensures forall i :: 0 <= i < |l.sessions| && i != k ==> l.sessions[i].id != id
  {
    forall i | 0 <= i < |l.sessions| && i != k
      ensures l.sessions[i].id != id
    {
      if k < i {
        assert SessionId(l.sessions[k]) != SessionId(l.sessions[i]);
      }
    }
  }

  /**
    Finishing the session that was appended last, under an id no earlier
    session carries, removes exactly it and logs it.
   */
  lemma FinishLast(l: Ledger, s: Session, now: int, locale: Locale)
    requires FreshId(l, s.id)
    ensures
      var r := Finish(l.(sessions := l.sessions + [s]), s.id, now, locale);
      && r.sessions == l.sessions
      && r.logs == [LogOf(s, now, locale)] + l.logs
  {
    var m := l.(sessions := l.sessions + [s]);
    var n := |l.sessions|;
    assert m.sessions[n] == s;
    assert IndexOf(m.sessions, s.id) == Some(n);
    var keep := (x: Session) => x.id != s.id;
    FilterAppend(l.sessions, [s], keep);
    FilterKeepsAll(l.sessions, keep);
    assert Filter([s], keep) == [];
  }

  /** A session list whose ids match position by position keeps unique ids unique. */
  lemma SameIdsDistinct(a: seq<Session>, b: seq<Session>)
    requires |a| == |b|
    requires forall i :: 0 <= i < |a| ==> a[i].id == b[i].id
    requires DistinctBy(a, SessionId)
    ensures DistinctBy(b, SessionId)
  {
    forall i, j | 0 <= i < j < |b|
      ensures SessionId(b[i]) != SessionId(b[j])
    {
      assert SessionId(a[i]) != SessionId(a[j]);
    }
  }

  // ------------------------------------------------- invariant preservation

  /** Starting a session with an unused id at a later instant keeps the ledger sound. */
  lemma StartKeepsSound(l: Ledger, t: int, now: int, id: int)
    requires Sound(l, t) && t <= now && FreshId(l, id)
    ensures Sound(Start(l, now, id), now)
  {
    var r := Start(l, now, id);
    if Chosen(l.selectedWorker) && Chosen(l.selectedTask) {
      var n := |l.sessions|;
      forall i | 0 <= i < |r.sessions|
        ensures Sane(r.sessions[i], now)
      {
        if i < n {
          assert r.sessions[i] == l.sessions[i];
          SaneLater(l.sessions[i], t, now);
        }
      }
      forall i, j | 0 <= i < j < |r.sessions|
        ensures SessionId(r.sessions[i]) != SessionId(r.sessions[j])
      {
        assert r.sessions[i] == l.sessions[i];
        if j < n {
          assert r.sessions[j] == l.sessions[j];
        }
      }
    } else {
      forall i | 0 <= i < |r.sessions|
        ensures Sane(r.sessions[i], now)
      {
        SaneLater(l.sessions[i], t, now);
      }
    }
  }

  /** Holding active sessions at a later instant keeps the ledger sound. */
  lemma HoldKeepsSound(l: Ledger, t: int, now: int, id: int)
    requires Sound(l, t) && t <= now && AllWithIdAre(l, id, Active)
    ensures Sound(Hold(l, id, now), now)
  {
    var r := Hold(l, id, now);
    match IndexOf(l.sessions, id)
    case None =>
      forall i | 0 <= i < |r.sessions|
        ensures Sane(r.sessions[i], now)
      {
        SaneLater(l.sessions[i], t, now);
      }
    case Some(k) =>
      OnlyMatch(l, id, k);
      forall i | 0 <= i < |r.sessions|
        ensures Sane(r.sessions[i], now)
        ensures r.sessions[i].id == l.sessions[i].id
      {
        if i == k {
          SaneHold(l.sessions[k], t, now);
        } else {
          SaneLater(l.sessions[i], t, now);
        }
      }
      SameIdsDistinct(l.sessions, r.sessions);
  }

  /** Resuming holding sessions at a later instant keeps the ledger sound. */
  lemma ResumeKeepsSound(l: Ledger, t: int, now: int, id: int)
    requires Sound(l, t) && t <= now && AllWithIdAre(l, id, Holding)
    ensures Sound(Resume(l, id, now), now)
  {
    var r := Resume(l, id, now);
    forall i | 0 <= i < |r.sessions|
      ensures Sane(r.sessions[i], now)
      ensures r.sessions[i].id == l.sessions[i].id
    {
      if l.sessions[i].id == id {
        SaneResume(l.sessions[i], t, now);
      } else {
        SaneLater(l.sessions[i], t, now);
      }
    }
    SameIdsDistinct(l.sessions, r.sessions);
  }

  /** Finishing, whatever the session's status, keeps the ledger sound. */
  lemma FinishKeepsSound(l: Ledger, t: int, now: int, id: int, locale: Locale)
    requires Sound(l, t) && t <= now
    ensures Sound(Finish(l, id, now, locale), now)
  {
    var r := Finish(l, id, now, locale);
    if IndexOf(l.sessions, id).Some? {
      FilterPreservesDistinct(l.sessions, (x: Session) => x.id != id, SessionId);
    }
    forall i | 0 <= i < |r.sessions|
      ensures Sane(r.sessions[i], now)
    {
      assert r.sessions[i] in l.sessions;
      var j :| 0 <= j < |l.sessions| && l.sessions[j] == r.sessions[i];
      SaneLater(l.sessions[j], t, now);
    }
  }

  /** Editing a memo keeps the ledger sound. */
  lemma UpdateMemoKeepsSound(l: Ledger, t: int, id: int, memo: string)
    requires Sound(l, t)
    ensures Sound(UpdateMemo(l, id, memo), t)
  {
    var r := UpdateMemo(l, id, memo);
    forall i | 0 <= i < |r.sessions|
      ensures Sane(r.sessions[i], t)
      ensures r.sessions[i].id == l.sessions[i].id
    {
      if l.sessions[i].id == id {
        assert r.sessions[i] == WithMemo(l.sessions[i], memo);
        SaneMemo(l.sessions[i], t, memo);
      }
    }
    SameIdsDistinct(l.sessions, r.sessions);
  }

  /** Deleting a session keeps the ledger sound. */
  lemma DeleteSessionKeepsSound(l: Ledger, t: int, id: int, confirmed: bool)
    requires Sound(l, t)
    ensures Sound(DeleteSession(l, id, confirmed), t)
  {
    if confirmed {
      FilterPreservesDistinct(l.sessions, (x: Session) => x.id != id, SessionId);
      var r := DeleteSession(l, id, confirmed);
      forall i | 0 <= i < |r.sessions|
        ensures Sane(r.sessions[i], t)
      {
        assert r.sessions[i] in l.sessions;
      }
    }
  }

  /** Adding a worker or a task keeps the ledger valid. */
  lemma AddKeepsValid(l: Ledger, name: string)
    requires Valid(l)
    ensures Valid(AddWorker(l, name)) && Valid(AddTask(l, name))
  {
    assert AddWorker(l, name).sessions == l.sessions;
    assert AddTask(l, name).sessions == l.sessions;
  }

  /** Deleting a worker keeps the ledger valid: a stale selection is cleared. */
  lemma DeleteWorkerKeepsValid(l: Ledger, name: string, confirmed: bool)
    requires Valid(l)
    ensures Valid(DeleteWorker(l, name, confirmed))
  {
    var r := DeleteWorker(l, name, confirmed);
    assert r.sessions == l.sessions && r.tasks == l.tasks && r.selectedTask == l.selectedTask;
    if confirmed && r.selectedWorker.Some? {
      assert r.selectedWorker == l.selectedWorker;
      assert r.selectedWorker.value in l.workers && r.selectedWorker.value != name;
    }
  }

  /** Deleting a task keeps the ledger valid: a stale selection is cleared. */
  lemma DeleteTaskKeepsValid(l: Ledger, name: string, confirmed: bool)
    requires Valid(l)
    ensures Valid(DeleteTask(l, name, confirmed))
  {
    var r := DeleteTask(l, name, confirmed);
    assert r.sessions == l.sessions && r.workers == l.workers && r.selectedWorker == l.selectedWorker;
    if confirmed && r.selectedTask.Some? {
      assert r.selectedTask == l.selectedTask;
      assert r.selectedTask.value in l.tasks && r.selectedTask.value != name;
    }
  }

  // ------------------------------------------------------ logged durations

  /**
    Finishing an active session of a sound ledger logs the canonical
    breakdown of its whole worked seconds and whole held seconds, and the two
    together fall short of the session's whole-second span by at most one
    second, lost to truncation.
   */
  lemma FinishLogsSpan(l: Ledger, t: int, now: int, id: int, locale: Locale)
    requires Sound(l, t) && t <= now
    requires IndexOf(l.sessions, id).Some?
    requires l.sessions[IndexOf(l.sessions, id).value].status == Active
    ensures
      var s := l.sessions[IndexOf(l.sessions, id).value];
      var e := Finish(l, id, now, locale).logs[0];
      var span := now - s.initialStartTime;
      && IsBreakdownOf(e.duration, Accrued(s, now) / 1000)
      && IsBreakdownOf(e.holdingTime, (span - Accrued(s, now)) / 1000)
      && span / 1000 - 1 <= TotalSeconds(e.duration) + TotalSeconds(e.holdingTime) <= span / 1000
  {
    var s := l.sessions[IndexOf(l.sessions, id).value];
    var e := Finish(l, id, now, locale).logs[0];
    SaneClosing(s, t, now);
    var c := Closing(s, now);
    assert e == LogOf(s, now, locale);
    assert c.elapsed / 1000 * 1000 <= c.elapsed < c.elapsed / 1000 * 1000 + 1000;
    assert c.holding / 1000 * 1000 <= c.holding < c.holding / 1000 * 1000 + 1000;
  }

  // ------------------------------------------------------------- inverses

  /**
    A session started at `now` and finished at `later` leaves the sessions as
    they were and logs the elapsed span with no holding time.
   */
  lemma StartThenFinish(l: Ledger, now: int, later: int, id: int, locale: Locale)
    requires Chosen(l.selectedWorker) && Chosen(l.selectedTask)
    requires FreshId(l, id) && now <= later
    ensures
      var r := Finish(Start(l, now, id), id, later, locale);
      && r.sessions == l.sessions
      && r.logs[1..] == l.logs
      && r.logs[0].duration == FinishBreakdown(later - now)
      && r.logs[0].holdingTime == Hms(0, 0, 0)
  {
    var s := NewSession(id, l.selectedWorker.value, l.selectedTask.value, l.draftMemo, now);
    var base := l.(draftMemo := "");
    var e := LogOf(s, later, locale);
    assert Finish(Start(l, now, id), id, later, locale) == base.(logs := [e] + l.logs) by {
      StartAppends(l, now, id);
      FinishLast(base, s, later, locale);
    }
    FreshLog(s, now, later, locale);
  }

  /** The log of a session never held records its span as worked time. */
  lemma FreshLog(s: Session, now: int, later: int, locale: Locale)
    requires s == NewSession(s.id, s.worker, s.task, s.memo, now)
    ensures LogOf(s, later, locale).duration == FinishBreakdown(later - now)
    ensures LogOf(s, later, locale).holdingTime == Hms(0, 0, 0)
  {
    var c := Closing(s, later);
    assert c == Totals(later - now, 0);
    LogOfTotals(s, later, locale);
    ZeroBreakdown();
  }

  lemma StartAppends(l: Ledger, now: int, id: int)
    requires Chosen(l.selectedWorker) && Chosen(l.selectedTask)
    ensures Start(l, now, id)
         == l.(draftMemo := "", sessions := l.sessions
               + [NewSession(id, l.selectedWorker.value, l.selectedTask.value, l.draftMemo, now)])
  {
  }

  lemma LogOfTotals(s: Session, now: int, locale: Locale)
    ensures LogOf(s, now, locale).duration == FinishBreakdown(Closing(s, now).elapsed)
    ensures LogOf(s, now, locale).holdingTime == FinishBreakdown(Closing(s, now).holding)
  {
  }

  lemma ZeroBreakdown()
    ensures FinishBreakdown(0) == Hms(0, 0, 0)
  {
  }

  /** Deleting a session that was just started restores the sessions. */
  lemma StartThenDelete(l: Ledger, now: int, id: int)
    requires Chosen(l.selectedWorker) && Chosen(l.selectedTask)
    requires FreshId(l, id)
    ensures DeleteSession(Start(l, now, id), id, true) == l.(draftMemo := "")
  {
    var m := Start(l, now, id);
    var n := |l.sessions|;
    assert m.sessions == l.sessions + [m.sessions[n]];
    var keep := (x: Session) => x.id != id;
    FilterAppend(l.sessions, [m.sessions[n]], keep);
    FilterKeepsAll(l.sessions, keep);
  }

  /** Holding and then resuming a session restores its status and keeps its accrued time. */
  lemma HoldThenResume(l: Ledger, id: int, held: int, resumed: int, later: int)
    requires DistinctBy(l.sessions, SessionId)
    requires IndexOf(l.sessions, id).Some?
    requires l.sessions[IndexOf(l.sessions, id).value].status == Active
    ensures
      var k := IndexOf(l.sessions, id).value;
      var r := Resume(Hold(l, id, held), id, resumed);
      && |r.sessions| == |l.sessions|
      && r.sessions[k].status == Active
      && Accrued(r.sessions[k], later) == Accrued(l.sessions[k], held) + (later - resumed)
      && forall i :: 0 <= i < |l.sessions| && i != k ==> r.sessions[i] == l.sessions[i]
  {
    var k := IndexOf(l.sessions, id).value;
    OnlyMatch(l, id, k);
    var h := Hold(l, id, held);
    assert h.sessions[k] == HeldAt(l.sessions[k], held);
    assert forall i :: 0 <= i < |l.sessions| ==> h.sessions[i].id == l.sessions[i].id;
  }

  // ---------------------------------------------------------- idempotence

  /** Only the last of two memo edits on the same id survives. */
  lemma MemoLastWriteWins(l: Ledger, id: int, first: string, second: string)
    ensures UpdateMemo(UpdateMemo(l, id, first), id, second) == UpdateMemo(l, id, second)
  {
    var a := UpdateMemo(UpdateMemo(l, id, first), id, second);
    var b := UpdateMemo(l, id, second);
    assert |a.sessions| == |b.sessions|;
    forall i | 0 <= i < |a.sessions|
      ensures a.sessions[i] == b.sessions[i]
    {
    }
  }

  /** Deleting a session id twice is the same as once; an absent id changes nothing. */
  lemma DeleteSessionIdempotent(l: Ledger, id: int, confirmed: bool)
    ensures DeleteSession(DeleteSession(l, id, confirmed), id, confirmed) == DeleteSession(l, id, confirmed)
    ensures FreshId(l, id) ==> DeleteSession(l, id, confirmed) == l
  {
    var keep := (x: Session) => x.id != id;
    FilterIdempotent(l.sessions, keep);
    if FreshId(l, id) {
      FilterKeepsAll(l.sessions, keep);
    }
  }

  /** Deleting a log id twice is the same as once; an absent id changes nothing. */
  lemma DeleteLogIdempotent(l: Ledger, id: int, confirmed: bool)
    ensures DeleteLog(DeleteLog(l, id, confirmed), id, confirmed) == DeleteLog(l, id, confirmed)
    ensures (forall i :: 0 <= i < |l.logs| ==> l.logs[i].id != id) ==> DeleteLog(l, id, confirmed) == l
  {
    var keep := (e: LogEntry) => e.id != id;
    FilterIdempotent(l.logs, keep);
    if forall i :: 0 <= i < |l.logs| ==> l.logs[i].id != id {
      FilterKeepsAll(l.logs, keep);
    }
  }

  /** Clearing the log twice is the same as once. */
  lemma ClearIdempotent(l: Ledger, confirmed: bool)
    ensures ClearAllLogs(ClearAllLogs(l, confirmed), confirmed) == ClearAllLogs(l, confirmed)
  {
  }

  // ------------------------------------------------------------ scenarios

  /**
    Started at `t0`, held after 90 s, resumed after 150 s and finished after
    210 s: 2 min 30 s worked, 1 min held, and the session is gone.
   */
  lemma HoldResumeScenario(l: Ledger, t0: int, id: int, locale: Locale)
    requires Chosen(l.selectedWorker) && Chosen(l.selectedTask)
    requires FreshId(l, id)
    ensures
      var l1 := Start(l, t0, id);
      var l2 := Hold(l1, id, t0 + 90000);
      var l3 := Resume(l2, id, t0 + 150000);
      var l4 := Finish(l3, id, t0 + 210000, locale);
      && l4.sessions == l.sessions
      && l4.logs[0].duration == Hms(0, 2, 30)
      && l4.logs[0].holdingTime == Hms(0, 1, 0)
  {
    var base := l.(draftMemo := "");
    var w, k := l.selectedWorker.value, l.selectedTask.value;
    var s1 := Session(id, w, k, l.draftMemo, t0, t0, 0, Active);
    var s2 := HeldAt(s1, t0 + 90000);
    var s3 := ResumedAt(s2, t0 + 150000);
    assert Start(l, t0, id) == base.(sessions := l.sessions + [s1]) by {
      StartAppends(l, t0, id);
    }
    assert Hold(base.(sessions := l.sessions + [s1]), id, t0 + 90000) == base.(sessions := l.sessions + [s2]) by {
      HoldLast(base, s1, t0 + 90000);
    }
    assert Resume(base.(sessions := l.sessions + [s2]), id, t0 + 150000) == base.(sessions := l.sessions + [s3]) by {
      ResumeLast(base, s2, t0 + 150000);
    }
    var l4 := Finish(base.(sessions := l.sessions + [s3]), id, t0 + 210000, locale);
    assert l4.sessions == l.sessions && l4.logs[0] == LogOf(s3, t0 + 210000, locale) by {
      FinishLast(base, s3, t0 + 210000, locale);
    }
    ScenarioLog(s1, t0, locale);
  }

  /** The scenario's session, held after 90 s and resumed after 150 s, logs 2:30 worked and 1:00 held at 210 s. */
  lemma ScenarioLog(s1: Session, t0: int, locale: Locale)
    requires s1 == NewSession(s1.id, s1.worker, s1.task, s1.memo, t0)
    ensures
      var e := LogOf(ResumedAt(HeldAt(s1, t0 + 90000), t0 + 150000), t0 + 210000, locale);
      e.duration == Hms(0, 2, 30) && e.holdingTime == Hms(0, 1, 0)
  {
    var s3 := ResumedAt(HeldAt(s1, t0 + 90000), t0 + 150000);
    assert s3 == s1.(currentStartTime := t0 + 150000, totalElapsedTime := 90000);
    LogOfTotals(s3, t0 + 210000, locale);
    assert Closing(s3, t0 + 210000) == Totals(150000, 60000);
    ScenarioBreakdowns();
  }

  lemma ScenarioBreakdowns()
    ensures FinishBreakdown(150000) == Hms(0, 2, 30)
    ensures FinishBreakdown(60000) == Hms(0, 1, 0)
  {
  }

  /** Holding the session appended last, under a fresh id, changes only it. */
  lemma HoldLast(l: Ledger, s: Session, now: int)
    requires FreshId(l, s.id)
    ensures Hold(l.(sessions := l.sessions + [s]), s.id, now) == l.(sessions := l.sessions + [HeldAt(s, now)])
  {
    AppendedUpdate(l, s, HoldPatch(s, now));
  }

  /** Resuming the session appended last, under a fresh id, changes only it. */
  lemma ResumeLast(l: Ledger, s: Session, now: int)
    requires FreshId(l, s.id)
    ensures Resume(l.(sessions := l.sessions + [s]), s.id, now) == l.(sessions := l.sessions + [ResumedAt(s, now)])
  {
    AppendedUpdate(l, s, ResumePatch(now));
  }

  /** Patching the session appended last, under a fresh id, changes only it. */
  lemma AppendedUpdate(l: Ledger, s: Session, p: Patch)
    requires FreshId(l, s.id)
    ensures IndexOf(l.sessions + [s], s.id) == Some(|l.sessions|)
    ensures UpdateSession(l.sessions + [s], s.id, p) == l.sessions + [ApplyPatch(s, p)]
  {
    var n := |l.sessions|;
    var xs := l.sessions + [s];
    assert forall i :: 0 <= i < n ==> xs[i] == l.sessions[i];
    assert xs[n] == s;
    var r := UpdateSession(xs, s.id, p);
    var expected := l.sessions + [ApplyPatch(s, p)];
    assert |r| == |expected|;
    forall i | 0 <= i < |r|
      ensures r[i] == expected[i]
    {
      if i < n {
        assert xs[i].id != s.id;
      }
    }
  }
}
