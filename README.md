# Daily Performance Log propagation and bulk attendance marking

A Dafny model of two pieces of the ETPMS Frappe app:

- **The Daily Performance Log hooks** (`daily_performance_log.py`). Submitting a log adds its `qty_completed` to the linked Project Activity's `completed_qty`. Cancelling it subtracts the quantity, floored at 0. In both cases the change then moves up the hierarchy:
  - the activity's `progress` becomes completed / target × 100, or 0 when the target is 0;
  - the progress of the activity's Task becomes the summed completed quantity over the summed target of all of that task's activities;
  - the `percent_complete` of the task's Project becomes the unweighted mean of its tasks' progress.

  Afterwards the activity's progress is copied onto the log as `performance_to_date`.
- **The attendance bulk marker** (`att.py`). For every day of a payroll period and every active employee, it inserts a "Present" attendance record on the "Regular Day Shift" unless one already exists, and counts the inserts.

Layout:

- `wrappers.dfy`: `Option`.
- `sums.dfy`: sums of a field over the records of a table whose keys lie in a set. This models `SUM(...)` over a filtered table and Python's `sum(...)`. It also proves that the summing order does not matter, how replacing one record changes a sum, and the bounds of a sum.
- `propagation.dfy`: a snapshot `Db` of the Project Activity, Task and Project tables, plus the pure rules:
  - `Ratio` (the zero-target guard);
  - `SubmittedQty` and `CancelledQty`;
  - the task and project aggregates;
  - `Propagate`, the whole upward chain;
  - `Submit`, `Cancel` and `PerformanceToDate`, each with its error results.
- `propagation_properties.dfy`: lemmas about those rules:
  - consistency is preserved;
  - the last write wins;
  - cancel undoes submit;
  - the project mean lies within bounds.
- `performance_log.dfy`: the imperative side.
  - A `Store` class holds the three tables as mutable maps.
  - A `DailyPerformanceLog` class has one method per hook. Each method changes fields step by step and is proved to reach the state given by the pure rules.
- `attendance.dfy`: the bulk marker as a nested `while` loop over an `AttendanceTable` class, keyed by (employee, day number).
  - `MarkDays` is a step-by-step fold of the same steps, and the method is proved against it.
  - `Marked` is the declarative table: the old records plus a new record for each missing (active employee, day) pair.
  - Lemmas connect the fold to `Marked` and prove coverage, preservation, the count, the shape of new records and idempotence.

The hooks read no measurement-type field, so only the additive rule they implement is modelled: submitting adds the quantity, cancelling subtracts it.

## Model

| member | source | states |
|---|---|---|
| Propagation.Ratio | etpms/etpms/doctype/daily_performance_log/daily_performance_log.py:26-29 | A zero whole gives 0. Otherwise the result times the whole is part × 100. For 0 ≤ part ≤ whole it lies in [0, 100]. |
| Propagation.CancelledQty | etpms/etpms/doctype/daily_performance_log/daily_performance_log.py:77-81 | On cancel the new completed quantity is never negative. It is old − qty when that is ≥ 0, and 0 otherwise. |
| Propagation.Propagate | etpms/etpms/doctype/daily_performance_log/daily_performance_log.py:23-68 | Sets the activity's completed quantity and recomputes its progress. Without a task nothing else changes. With one, the task's progress is the ratio of the sums over its activities, including the new value, and no other task changes. Without a project the chain stops there. With one, the project's percentage is the mean over its tasks, and no other project changes. |
| Propagation.Submit | etpms/etpms/doctype/daily_performance_log/daily_performance_log.py:17-68 | No link gives ActivityNotLinked. A missing activity gives ActivityNotFound. An unset log quantity gives QuantityNotSet, since adding it fails before anything is saved. Otherwise the result is Ok, links stay valid, and completed_qty becomes old (unset read as 0) + qty. |
| Propagation.Cancel | etpms/etpms/doctype/daily_performance_log/daily_performance_log.py:70-125 | The same three refusals as Submit, in the same order. Otherwise completed_qty becomes old − qty floored at 0, and is never negative. |
| PropagationProperties.TaskProgressFrame | etpms/etpms/doctype/daily_performance_log/daily_performance_log.py:37-51 | A task's progress depends only on the task links, targets and completed quantities of the activities. |
| PropagationProperties.ProjectPercentFrame | etpms/etpms/doctype/daily_performance_log/daily_performance_log.py:59-66 | A project's percentage depends only on the project links and progress of the tasks. |
| PropagationProperties.TotalsAfterPropagate | etpms/etpms/doctype/daily_performance_log/daily_performance_log.py:37-46 | After the update, the task's summed completed quantity swaps the activity's old value for its new one. The summed target is unchanged. |
| PropagationProperties.TaskStaysConsistent | etpms/etpms/doctype/daily_performance_log/daily_performance_log.py:35-54 | On a consistent store, every task's progress afterwards still equals the ratio computed from the activity table. |
| PropagationProperties.ProjectStaysConsistent | etpms/etpms/doctype/daily_performance_log/daily_performance_log.py:57-68 | On a consistent store, every project's percentage afterwards still equals the mean computed from the task table. |
| PropagationProperties.PropagateKeepsConsistent | etpms/etpms/doctype/daily_performance_log/daily_performance_log.py:23-68 | Propagation keeps every derived field (activity, task and project progress) consistent with the quantities. |
| PropagationProperties.SecondPropagationActivities | etpms/etpms/doctype/daily_performance_log/daily_performance_log.py:23-31 | Two propagations from one activity leave the activity table as the second alone would. |
| PropagationProperties.SecondPropagationTasks | etpms/etpms/doctype/daily_performance_log/daily_performance_log.py:35-54 | Two propagations from one activity leave the task table as the second alone would. |
| PropagationProperties.SecondPropagationProjects | etpms/etpms/doctype/daily_performance_log/daily_performance_log.py:57-68 | Two propagations from one activity leave the project table as the second alone would. |
| PropagationProperties.PropagateLastWriteWins | etpms/etpms/doctype/daily_performance_log/daily_performance_log.py:23-68 | Of two propagations from the same activity, only the later one decides the store. |
| PropagationProperties.PropagateCurrentIsIdentity | etpms/etpms/doctype/daily_performance_log/daily_performance_log.py:23-68 | Propagating an activity's own quantity on a consistent store changes nothing. |
| PropagationProperties.SubmitCancelRoundTrip | etpms/etpms/doctype/daily_performance_log/daily_performance_log.py:17-125 | Submit then cancel of the same quantity succeeds whenever the old quantity is ≥ 0 (unset read as 0). The result is the store recomputed from the old quantity, because the floor is not engaged. |
| PropagationProperties.SubmitCancelRestores | etpms/etpms/doctype/daily_performance_log/daily_performance_log.py:17-125 | On a consistent store with a set quantity ≥ 0, submit then cancel restores every activity, task and project record exactly. |
| PropagationProperties.TaskProgressInRange | etpms/etpms/doctype/daily_performance_log/daily_performance_log.py:37-51 | When every activity of a task has 0 ≤ completed ≤ target, the task's progress from the summed quantities lies in [0, 100]. |
| PropagationProperties.PerformanceAfterSubmit | etpms/etpms/doctype/daily_performance_log/daily_performance_log.py:9-11 | After a submission, performance_to_date is (old quantity, unset read as 0, + qty) as a percentage of the activity's target, or 0 for a zero target. |
| PropagationProperties.PerformanceAfterCancel | etpms/etpms/doctype/daily_performance_log/daily_performance_log.py:13-15 | After a cancellation, performance_to_date is the floored difference as a percentage of the activity's target, or 0 for a zero target. |
| PropagationProperties.ProjectPercentBounds | etpms/etpms/doctype/daily_performance_log/daily_performance_log.py:59-66 | A project without tasks gets 0. Otherwise its percentage lies between the least and the greatest progress of its tasks. |
| PropagationProperties.ProjectPercentOfEqualTasks | etpms/etpms/doctype/daily_performance_log/daily_performance_log.py:59-66 | When all tasks of a project have the same progress, the mean is that value. |
| PerformanceLog.Store.SetCompletedAndPropagate | etpms/etpms/doctype/daily_performance_log/daily_performance_log.py:23-68 | The step-by-step load, update and save of activity, task and project leaves the store equal to Propagate of the old store. |
| PerformanceLog.DailyPerformanceLog.UpdateProjectActivity | etpms/etpms/doctype/daily_performance_log/daily_performance_log.py:17-68 | Refuses without writing when Submit refuses. Otherwise it passes and the store becomes Submit's result. |
| PerformanceLog.DailyPerformanceLog.CancelUpdateProjectActivity | etpms/etpms/doctype/daily_performance_log/daily_performance_log.py:70-125 | Refuses without writing when Cancel refuses. Otherwise it passes and the store becomes Cancel's result, with the floor applied in place. |
| PerformanceLog.DailyPerformanceLog.UpdateActivityPerformanceToDate | etpms/etpms/doctype/daily_performance_log/daily_performance_log.py:127-135 | Copies the linked activity's progress into performance_to_date. A missing link or activity changes nothing. |
| PerformanceLog.DailyPerformanceLog.OnSubmit | etpms/etpms/doctype/daily_performance_log/daily_performance_log.py:9-11 | On success the store is Submit's result and performance_to_date equals the activity's new progress. On refusal neither the store nor the log changes. |
| PerformanceLog.DailyPerformanceLog.OnCancel | etpms/etpms/doctype/daily_performance_log/daily_performance_log.py:13-15 | On success the store is Cancel's result and performance_to_date equals the activity's new progress. On refusal neither the store nor the log changes. |
| Attendance.ActiveEmployeesMembers | etpms/etpms/doctype/daily_performance_log/att.py:23 | The employee list holds exactly the employees whose status is Active. |
| Attendance.NoneActive | etpms/etpms/doctype/daily_performance_log/att.py:23 | With no Active employee the list is empty. |
| Attendance.FirstNameFound | etpms/etpms/doctype/daily_performance_log/att.py:33-34 | The name written for an employee id belongs to an employee of the list with that id. |
| Attendance.GridMembers | etpms/etpms/doctype/daily_performance_log/att.py:27-41 | The pairs the loops visit are exactly the (listed employee, day) pairs with the day in [start, end]. |
| Attendance.Marked | etpms/etpms/doctype/daily_performance_log/att.py:27-41 | The marked table has the old records plus exactly the missing (active employee, day) pairs as keys. |
| Attendance.AttendanceTable.Insert | etpms/etpms/doctype/daily_performance_log/att.py:32-39 | Stores the record under its employee and date and changes nothing else. |
| Attendance.MarkEmployeesInserted | etpms/etpms/doctype/daily_performance_log/att.py:29-40 | The inner loop over the first i employees inserts a new record for each of their pairs on that day that had none. Later duplicates of an id are skipped. |
| Attendance.MarkDaysInserted | etpms/etpms/doctype/daily_performance_log/att.py:27-41 | The outer loop up to a day inserts a new record for every visited pair that had none. |
| Attendance.MarkDaysIsMarked | etpms/etpms/doctype/daily_performance_log/att.py:27-41 | Running the loop steps over the whole period yields the declarative marked table. |
| Attendance.MarkedCount | etpms/etpms/doctype/daily_performance_log/att.py:24-40 | The marked table has one more record than the old table for each missing pair. |
| Attendance.MarkedKeepsExisting | etpms/etpms/doctype/daily_performance_log/att.py:31 | Every record that existed before is still there, unchanged, and is not duplicated. |
| Attendance.MarkedCovers | etpms/etpms/doctype/daily_performance_log/att.py:23-41 | Afterwards every active employee has a record for every day of [start, end]. |
| Attendance.MarkedNewRecord | etpms/etpms/doctype/daily_performance_log/att.py:32-38 | A newly added record is for a day in [start, end] and an Active employee of that id. It is Present, on the Regular Day Shift, and carries that employee's name. |
| Attendance.NothingToMark | etpms/etpms/doctype/daily_performance_log/att.py:23-27 | With start after end, or with no active employee, nothing is missing and the table is unchanged. |
| Attendance.MarkedIdempotent | etpms/etpms/doctype/daily_performance_log/att.py:31 | After marking, nothing is missing, and marking the same period again leaves the table unchanged. |
| Attendance.MarkAttendanceForPayrollPeriod | etpms/etpms/doctype/daily_performance_log/att.py:22-41 | The nested loop leaves the table equal to the marked table. The returned count equals the number of pairs that had no record. |

## Left out

- Persistence: `frappe.get_doc`, `save`, `db_set`, `frappe.db.commit` and the raw SQL become reads and writes of in-memory maps.
  - The separate commits at each level, and so partial updates after a failure between them, are not modelled.
  - Concurrent submissions, and the lost updates they could cause, are not modelled.
- Floating point: quantities, ratios and means are exact `real` numbers, so rounding is not modelled.
- `daily_performance_log.py` comments out `import frappe` at line 4, so as written each `frappe.throw` and `frappe.get_doc` would raise a NameError. The model gives the intended behaviour: an error result when no activity is linked, or when the linked one does not exist.
- Dangling Task or Project links are excluded by the `Linked` precondition, because the framework validates Link fields. A link that names a missing record would make `get_doc` fail after the activity was already saved.
- Document names are natural numbers for activities, tasks and projects, and strings for employees. Only their equality matters in the code.
- Exception handling in `att.py`:
  - the `try`/`except` that logs and re-raises is not modelled;
  - the result message is not modelled, and the method returns the count it reports.
- Dates are integer day numbers. `getdate` and `strftime` are not modelled.
- The Payroll Period record is passed in as a value instead of being fetched by name.
- The Employee table is passed in as a sequence and filtered to status Active.
- The Attendance table is a map keyed by (employee, day), so the model cannot hold two records for the same pair.
