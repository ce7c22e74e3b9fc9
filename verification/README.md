# Work-session tracker ledger, in Dafny

This project models the bookkeeping core of a small React work-time tracker. A
worker picks a name and a task from two catalogs and starts a **session**.
A session can be put on hold and resumed any number of times. When it is
finished it becomes a **log entry** that records the worked and held time as
hours, minutes and seconds. The holding list shows how long each held
session has been running, using its own duration formatter.

The state of the application is one value, `Tracker.Ledger`: the two
catalogs, the current selection, the memo draft, the open sessions and the
logs. Every handler in `src/App.tsx` is a pure function from a ledger to the
next ledger. The clock reading (`now`) and the id taken from it are explicit
arguments, and so is the answer to a confirmation dialog (`confirmed`).

Modules:

- `Optional`: the `Option` datatype.
- `Seqs`: order-preserving `Filter`, which plays the part of JavaScript's `Array.prototype.filter`, and its laws.
- `Duration`: the two millisecond-to-h/m/s breakdowns. The one in `handleFinish` divides step by step and takes JavaScript remainders. `formatElapsedTime` takes the hours straight from the seconds. For non-negative durations they are proved equal, and a negative input is exhibited on which they differ.
- `Sessions`: the session record and `updateSession`'s shallow merge. Also the three status changes (`HeldAt`, `ResumedAt`, `Closing`) and a reference definition of worked time over a trace of hold and resume events.
- `Catalog`: the worker and task name lists.
- `Tracker`: the ledger and one function per handler, plus the active and holding views.
- `TrackerLaws`: invariants the handlers keep, and laws relating them, such as start-then-finish, hold-then-resume, idempotence and last-write-wins.

The model keeps the code's behaviour at its edges:

- `handleHold`, `handleResume` and `handleFinish` never look at a session's status.
- Holding a session that is already held adds the interval since its last start to its total a second time. `Sessions.HeldAt` states this.
- Resuming an already active session is not a no-op: it restarts the running interval and drops the time since the last start. `Sessions.ResumedAt` states this.
- The holding time written to a log is not clamped at zero.
- Finishing a session adds the interval since its last start even when it is on hold. The holding view has no finish action (it offers resume, delete and memo editing), so the user interface never does this. `Sessions.FinishWhileHoldingDoubleCounts` shows what would happen.
- Sessions take their shape from `src/App.tsx`, not from `src/types.ts`.

Properties that depend on how the interface is used are stated under that
discipline: hold and finish only on active sessions, resume only on held ones.
`Sessions.Sane(s, t)` is the invariant that carries them. It says a session's
first start ≤ its last start ≤ the clock, its total is non-negative, and its
worked time never exceeds its age.

## Model

| member | source | states |
|---|---|---|
| Seqs.Filter | src/App.tsx:140 | the kept elements are exactly the input's elements that pass the test, each with its full multiplicity and in their original order (a subsequence) |
| Seqs.FilterAppend | src/App.tsx:193 | filtering a concatenation is the concatenation of the filtered parts |
| Seqs.FilterPreservesDistinct | src/App.tsx:193 | removing entries from a list whose keys are distinct leaves the keys distinct |
| Sessions.ApplyPatch | src/App.tsx:55-57 | the spread `{...s, ...updates}`: each of status, last start, total and memo takes the patch's value when the patch names it and keeps the session's own otherwise; id, worker, task and first start never change; an empty patch changes nothing |
| Sessions.HoldPatch | src/App.tsx:87-90 | applying the hold patch marks the session holding and adds the interval since its last start to its total, and changes nothing else |
| Sessions.ResumePatch | src/App.tsx:147 | applying the resume patch to any session makes it active from `now` and changes nothing else |
| Sessions.MemoPatch | src/App.tsx:159 | applying the memo patch to any session replaces its memo and changes nothing else |
| Sessions.UpdateSession | src/App.tsx:55-57 | the list keeps its length and ids; every session with the id is patched, and every other session is left as it was |
| Sessions.IndexOf | src/App.tsx:84 | `find` returns the first session with the id, and returns nothing exactly when no session has it |
| Sessions.NewSession | src/App.tsx:66-76 | a new session is active, with first and last start at `now` and a zero total, so that at any later instant exactly the time since `now` has accrued; it carries the given id, worker, task and memo |
| Sessions.HeldAt | src/App.tsx:83-92 | whatever the status, the session becomes held and its total grows by `now` minus its last start, with identity, memo, first start and last start kept; an active session's accrued time is so frozen at its value at `now`, while a held one's is inflated by that interval a second time |
| Sessions.ResumedAt | src/App.tsx:144-150 | resuming a held session keeps its worked time and restarts the clock at `now`; resuming an active one discards its running interval |
| Sessions.WithMemo | src/App.tsx:158-160 | editing a memo changes only the memo |
| Sessions.Closing | src/App.tsx:99-104 | worked + held = the session's whole span; an active session's worked time is its accrued time, while for a held one the whole interval since its last start is added again, although the hold already folded it into the total |
| Sessions.SaneHold | src/App.tsx:83-92 | holding an active, sane session at a later instant leaves it sane at that instant |
| Sessions.SaneResume | src/App.tsx:144-150 | resuming a held, sane session keeps it sane from `now` on |
| Sessions.SaneClosing | src/App.tsx:99-104 | finishing a sane active session gives a non-negative worked time and a non-negative held time, so no clamping is needed |
| Sessions.NeverHeldClosesWithoutHolding | src/App.tsx:99-104 | a session finished without ever being held logs its whole span as worked and zero as held |
| Sessions.FinishWhileHoldingDoubleCounts | src/App.tsx:100-104 | a session started at t0, held at t1 and finished at t2 logs (t1-t0)+(t2-t0) as worked and -(t1-t0) as held, which is t2-t0 below the true held time t2-t1 |
| Sessions.ReplayAccounts | src/App.tsx:83-104 | after any alternating trace of holds and resumes, a session's accrued time equals the sum of its active intervals |
| Sessions.FinishAfterCycles | src/App.tsx:95-104 | finishing after such a trace logs exactly the active intervals as worked and the rest of the span as held |
| Sessions.ReplayKeepsOrigin | src/App.tsx:87-89 | holds and resumes never change a session's id or first start |
| Duration.FloorDiv | src/App.tsx:106-112 | `Math.floor(a / b)` for a positive divisor: the greatest q with q*b ≤ a |
| Duration.JsRem | src/App.tsx:128-129 | JavaScript's `%`: the remainder takes the sign of the dividend and is smaller than the divisor in magnitude |
| Duration.FinishBreakdown | src/App.tsx:106-135 | for a non-negative duration, hours ≥ 0, minutes and seconds in 0..59, totalling the whole seconds in it, with the sub-second part dropped; for a negative one, hours ≤ -1 and minutes and seconds in -59..0 |
| Duration.ElapsedBreakdown | src/components/HoldingList.tsx:16-22 | for a non-negative duration, the clock-style breakdown of its whole seconds |
| Duration.BreakdownUnique | src/components/HoldingList.tsx:17-20 | a number of seconds has exactly one clock-style breakdown |
| Duration.BreakdownsAgree | src/components/HoldingList.tsx:16-22 | for every non-negative duration, the holding list shows the same hours, minutes and seconds as `handleFinish` logs |
| Duration.BreakdownsDisagreeBelowZero | src/components/HoldingList.tsx:19 | at -3599000 ms `handleFinish` gives (-1, 0, -59), while the formatter gives (-1, -60, -59) |
| Catalog.AddName | src/App.tsx:162-167 | the name is listed afterwards; nothing else is added; an existing name leaves the list unchanged; the old list is a prefix; no duplicates are introduced |
| Catalog.RemoveName | src/App.tsx:173 | exactly the other names remain, each as often as before and in their order; removing an absent name changes nothing; no duplicates are introduced |
| Catalog.AddIdempotent | src/App.tsx:163 | adding a name twice is the same as adding it once |
| Catalog.RemoveUndoesAdd | src/App.tsx:162-175 | deleting a name that was just added restores the catalog |
| Catalog.RemoveIdempotent | src/App.tsx:173 | deleting a name twice is the same as deleting it once |
| Tracker.Chosen | src/App.tsx:61 | JavaScript truthiness of a selection: false exactly for `null` and the empty string |
| Tracker.ActiveSessions | src/App.tsx:43 | exactly the active sessions, each as often as in the ledger, as a subsequence of the ledger's order |
| Tracker.HoldingSessions | src/App.tsx:44 | exactly the held sessions, each as often as in the ledger, as a subsequence of the ledger's order |
| Tracker.ViewsPartition | src/App.tsx:43-44 | every session appears in exactly one of the two views, and together the views hold all sessions |
| Tracker.Start | src/App.tsx:60-80 | without a chosen worker and task nothing changes; otherwise one active session for the selection and draft memo is appended at `now`, the draft is cleared, and nothing else changes |
| Tracker.Hold | src/App.tsx:83-92 | an unknown id changes nothing; otherwise the first session with the id is held at `now`, any duplicate gets the same status and total, and every other session is untouched |
| Tracker.Resume | src/App.tsx:144-150 | an unknown id changes nothing; otherwise every session with the id is active again from `now`, and every other session is untouched |
| Tracker.LogOf | src/App.tsx:118-137 | the log keeps the session's id, worker, task and memo, its start and end stamps, the breakdowns of worked and held time, and the completed status |
| Tracker.Finish | src/App.tsx:95-141 | an unknown id changes nothing; otherwise the first session's log is put at the front of the logs, every session with the id is removed, and the rest stay, each as often as before and in order |
| Tracker.UpdateMemo | src/App.tsx:158-160 | every session with the id gets the new memo and nothing else changes; an unknown id changes nothing |
| Tracker.DeleteSession | src/App.tsx:191-195 | once confirmed, exactly the sessions with other ids remain, each as often as before and in order; if not confirmed, nothing changes |
| Tracker.DeleteLog | src/App.tsx:184-186 | once confirmed, exactly the logs with other ids remain, each as often as before and in order; if not confirmed, nothing changes |
| Tracker.ClearAllLogs | src/App.tsx:187-189 | once confirmed the log list is empty; if not confirmed, nothing changes; sessions and catalogs are untouched either way |
| Tracker.AddWorker | src/App.tsx:162-164 | the old worker catalog is kept as a prefix and a missing name is appended at its end; an existing name changes nothing; no duplicate is introduced; only the catalog changes |
| Tracker.AddTask | src/App.tsx:165-167 | the old task catalog is kept as a prefix and a missing name is appended at its end; an existing name changes nothing; no duplicate is introduced; only the catalog changes |
| Tracker.DeleteWorker | src/App.tsx:168-175 | once confirmed, exactly the other names remain, each as often as before and in order, and a selection of the name is cleared to none; any other selection, the sessions and the logs are unchanged; if not confirmed, nothing changes |
| Tracker.DeleteTask | src/App.tsx:176-183 | once confirmed, exactly the other names remain, each as often as before and in order, and a selection of the name is cleared to none; any other selection, the sessions and the logs are unchanged; if not confirmed, nothing changes |
| TrackerLaws.StartKeepsSound | src/App.tsx:60-80 | starting with a fresh id keeps the ids distinct and every session sane |
| TrackerLaws.HoldKeepsSound | src/App.tsx:83-92 | holding an active session keeps the ledger sound |
| TrackerLaws.ResumeKeepsSound | src/App.tsx:144-150 | resuming a held session keeps the ledger sound |
| TrackerLaws.FinishKeepsSound | src/App.tsx:95-141 | finishing a session keeps the ledger sound |
| TrackerLaws.UpdateMemoKeepsSound | src/App.tsx:158-160 | editing a memo keeps the ledger sound |
| TrackerLaws.DeleteSessionKeepsSound | src/App.tsx:191-195 | deleting a session keeps the ledger sound |
| TrackerLaws.AddKeepsValid | src/App.tsx:162-167 | adding a worker or task keeps the catalogs duplicate-free and the selection inside them |
| TrackerLaws.DeleteWorkerKeepsValid | src/App.tsx:168-175 | deleting a worker keeps the catalog duplicate-free and the selection inside it |
| TrackerLaws.DeleteTaskKeepsValid | src/App.tsx:176-183 | deleting a task keeps the catalog duplicate-free and the selection inside it |
| TrackerLaws.FinishLogsSpan | src/App.tsx:99-135 | finishing a sound active session logs clock-style breakdowns whose worked and held seconds add up to the span in whole seconds, less at most one second of truncation |
| TrackerLaws.StartThenFinish | src/App.tsx:60-141 | starting and then finishing with no hold restores the sessions and prepends one log with the whole span as worked and zero held |
| TrackerLaws.StartThenDelete | src/App.tsx:60-80 | starting and then deleting the fresh session (confirmed) restores the sessions |
| TrackerLaws.HoldThenResume | src/App.tsx:83-150 | holding and then resuming an active session keeps its accrued time and restarts it at the resume instant |
| TrackerLaws.MemoLastWriteWins | src/App.tsx:158-160 | two memo edits in a row are the same as the second alone |
| TrackerLaws.DeleteSessionIdempotent | src/App.tsx:191-195 | deleting a session twice is the same as once, and deleting an absent id changes nothing |
| TrackerLaws.DeleteLogIdempotent | src/App.tsx:184-186 | deleting a log twice is the same as once, and deleting an absent id changes nothing |
| TrackerLaws.ClearIdempotent | src/App.tsx:187-189 | clearing the logs twice is the same as once |
| TrackerLaws.HoldResumeScenario | src/App.tsx:60-141 | start at t0, hold at t0+90 s, resume at t0+150 s, finish at t0+210 s: the session is gone and its log shows 2 min 30 s worked and 1 min held |

## Left out

- Persistence in `localStorage` (src/App.tsx:22-35 and 49-52) is left out. The ledger is the in-memory state, and the JSON round-trip of dates is not modelled.
- `new Date()` and `Date.now()` are arguments: `now` for the clock and `id` for the new session's id. Uniqueness of ids is assumed only where the invariant lemmas need it, because the code does not check it.
- `window.confirm` is a `confirmed` argument. The `alert` in `handleStart` is a no-op on the ledger.
- The `ja-JP` date and time formatting of log stamps is an uninterpreted `Tracker.Locale` argument, because locale rendering is outside the model.
- `formatElapsedTime` renders `"<h>h <m>m <s>s"`. The model stops at the hours/minutes/seconds triple, because number-to-text conversion is not modelled.
- JavaScript numbers are doubles, but the model uses unbounded integers. This agrees with the code for millisecond values below 2^53.
- Interface-only state is not modelled: tabs (`setActiveTab`), the time-unit selectors, `handleReset` (src/App.tsx:152-156), and the selection setters. The selection and memo draft appear only as fields that `Start`, `DeleteWorker` and `DeleteTask` read or clear.
- The display components (`TimeDisplay`, the lists, `BottomNav`, `Selector`, `UnitSelector`) and `vite.config.ts` are not modelled. `src/types.ts` is not part of this model, because its shapes are superseded by the ones `src/App.tsx` builds.
- Duration.JsRem: the congruence of the remainder with the dividend is not stated. Only its sign and bound are stated, which is all the breakdown lemmas use.
