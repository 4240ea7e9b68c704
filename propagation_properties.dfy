/**
 * What the propagation rules guarantee: the derived fields stay consistent
 * with the quantities, a later propagation overrides an earlier one, a
 * cancellation undoes a submission unless the floor at 0 is engaged, task
 * totals take in the just-updated quantity, and a project's percentage is a
 * mean of its tasks' progress.
 */
module PropagationProperties {
  import opened Wrappers
  import opened Sums
  import opened Propagation

  /** A task's progress depends only on the task links, targets and completed quantities of the activities. */
  lemma TaskProgressFrame(acts1: map<ActivityId, Activity>, acts2: map<ActivityId, Activity>, t: TaskId)
    requires acts1.Keys == acts2.Keys
    requires forall b :: b in acts1 ==> acts1[b].task == acts2[b].task
    requires forall b :: b in acts1 && acts1[b].task == Some(t) ==>
      acts1[b].targetQty == acts2[b].targetQty && OrZero(acts1[b].completedQty) == OrZero(acts2[b].completedQty)
    ensures TaskProgress(acts1, t) == TaskProgress(acts2, t)
  {
    var ks := ActivitiesOf(acts1, t);
    assert ks == ActivitiesOf(acts2, t);
    SumByAgree(acts1, acts2, ks, TargetOf);
    SumByAgree(acts1, acts2, ks, CompletedOf);
  }

  /** A project's percentage depends only on the project links and progress of the tasks. */
  lemma ProjectPercentFrame(tasks1: map<TaskId, Task>, tasks2: map<TaskId, Task>, p: ProjectId)
    requires tasks1.Keys == tasks2.Keys
    requires forall t :: t in tasks1 ==> tasks1[t].project == tasks2[t].project
    requires forall t :: t in tasks1 && tasks1[t].project == Some(p) ==> tasks1[t].progress == tasks2[t].progress
    ensures ProjectPercent(tasks1, p) == ProjectPercent(tasks2, p)
  {
    var ks := TasksOf(tasks1, p);
    assert ks == TasksOf(tasks2, p);
    SumByAgree(tasks1, tasks2, ks, ProgressOf);
  }

  /**
   * The task's summed completed quantity takes in the new value of the updated
   * activity in place of its old one; the summed target does not change.
   */
  lemma TotalsAfterPropagate(d: Db, a: ActivityId, completed: real)
    requires Linked(d) && a in d.activities && d.activities[a].task.Some?
    ensures var t := d.activities[a].task.value;
      var r := Propagate(d, a, completed);
      && TotalCompleted(r.activities, t) == TotalCompleted(d.activities, t) - OrZero(d.activities[a].completedQty) + completed
      && TotalTarget(r.activities, t) == TotalTarget(d.activities, t)
  {
    var t := d.activities[a].task.value;
    var r := Propagate(d, a, completed);
    var ks := ActivitiesOf(d.activities, t);
    assert r.activities == d.activities[a := r.activities[a]];
    assert ActivitiesOf(r.activities, t) == ks;
    SumByUpdate(d.activities, ks, a, r.activities[a], CompletedOf);
    SumByUpdate(d.activities, ks, a, r.activities[a], TargetOf);
  }

  /** After propagation, every task's progress agrees with the activity table. */
  lemma TaskStaysConsistent(d: Db, a: ActivityId, completed: real, u: TaskId)
    requires Consistent(d) && a in d.activities && u in d.tasks
    ensures var r := Propagate(d, a, completed);
      r.tasks[u].progress == TaskProgress(r.activities, u)
  {
    var r := Propagate(d, a, completed);
    if d.activities[a].task != Some(u) {
      TaskProgressFrame(r.activities, d.activities, u);
    }
  }

  /** After propagation, every project's percentage agrees with the task table. */
  lemma ProjectStaysConsistent(d: Db, a: ActivityId, completed: real, q: ProjectId)
    requires Consistent(d) && a in d.activities && q in d.projects
    ensures var r := Propagate(d, a, completed);
      r.projects[q].percentComplete == ProjectPercent(r.tasks, q)
  {
    var r := Propagate(d, a, completed);
    var x := d.activities[a];
    match x.task
    case None =>
      assert r.tasks == d.tasks && r.projects == d.projects;
    case Some(t) =>
      if d.tasks[t].project != Some(q) {
        assert r.projects[q] == d.projects[q];
        assert forall u :: u in r.tasks ==> r.tasks[u].project == d.tasks[u].project;
        assert forall u :: u in r.tasks && r.tasks[u].project == Some(q) ==> u != t && r.tasks[u] == d.tasks[u];
        ProjectPercentFrame(r.tasks, d.tasks, q);
      }
  }

  /** Propagation keeps every derived field of a consistent store consistent. */
  lemma PropagateKeepsConsistent(d: Db, a: ActivityId, completed: real)
    requires Consistent(d) && a in d.activities
    ensures Consistent(Propagate(d, a, completed))
  {
    var r := Propagate(d, a, completed);
    forall u | u in r.tasks
      ensures r.tasks[u].progress == TaskProgress(r.activities, u)
    {
      TaskStaysConsistent(d, a, completed, u);
    }
    forall q | q in r.projects
      ensures r.projects[q].percentComplete == ProjectPercent(r.tasks, q)
    {
      ProjectStaysConsistent(d, a, completed, q);
    }
  }

  /** A second propagation from the same activity rewrites the same activity record. */
  lemma SecondPropagationActivities(d: Db, a: ActivityId, first: real, second: real)
    requires Linked(d) && a in d.activities
    ensures Propagate(Propagate(d, a, first), a, second).activities == Propagate(d, a, second).activities
  {
    var d1 := Propagate(d, a, first);
    assert d1.activities == d.activities[a := d1.activities[a]];
  }

  /** A second propagation from the same activity rewrites the same task record. */
  lemma SecondPropagationTasks(d: Db, a: ActivityId, first: real, second: real)
    requires Linked(d) && a in d.activities
    ensures Propagate(Propagate(d, a, first), a, second).tasks == Propagate(d, a, second).tasks
  {
    var d1 := Propagate(d, a, first);
    var r := Propagate(d1, a, second);
    var s := Propagate(d, a, second);
    SecondPropagationActivities(d, a, first, second);
    if d.activities[a].task.Some? {
      var t := d.activities[a].task.value;
      assert r.tasks[t] == s.tasks[t];
      assert forall u :: u in d.tasks && u != t ==> r.tasks[u] == s.tasks[u];
    }
  }

  /** A second propagation from the same activity rewrites the same project record. */
  lemma SecondPropagationProjects(d: Db, a: ActivityId, first: real, second: real)
    requires Linked(d) && a in d.activities
    ensures Propagate(Propagate(d, a, first), a, second).projects == Propagate(d, a, second).projects
  {
    var d1 := Propagate(d, a, first);
    SecondPropagationTasks(d, a, first, second);
    if d.activities[a].task.Some? {
      var t := d.activities[a].task.value;
      if d.tasks[t].project.Some? {
        var p := d.tasks[t].project.value;
        assert d1.projects == d.projects[p := d1.projects[p]];
      }
    }
  }

  /** Of two propagations from the same activity, the later one alone decides the result. */
  lemma PropagateLastWriteWins(d: Db, a: ActivityId, first: real, second: real)
    requires Linked(d) && a in d.activities
    ensures Propagate(Propagate(d, a, first), a, second) == Propagate(d, a, second)
  {
    SecondPropagationActivities(d, a, first, second);
    SecondPropagationTasks(d, a, first, second);
    SecondPropagationProjects(d, a, first, second);
  }

  /** Propagating an activity's own completed quantity leaves a consistent store as it was. */
  lemma PropagateCurrentIsIdentity(d: Db, a: ActivityId)
    requires Consistent(d) && a in d.activities && d.activities[a].completedQty.Some?
    ensures Propagate(d, a, d.activities[a].completedQty.value) == d
  {
    var r := Propagate(d, a, d.activities[a].completedQty.value);
    assert r.activities == d.activities;
    assert r.tasks == d.tasks;
    assert r.projects == d.projects;
  }

  /**
   * Submitting then cancelling a log with the same quantity puts the activity's
   * completed quantity back (an unset one comes back as 0) and recomputes the
   * chain from it, whenever that quantity was not negative.
   */
  lemma SubmitCancelRoundTrip(d: Db, a: ActivityId, qty: real)
    requires Linked(d) && a in d.activities
    requires OrZero(d.activities[a].completedQty) >= 0.0
    ensures Submit(d, Some(a), Some(qty)).Ok?
    ensures Cancel(Submit(d, Some(a), Some(qty)).value, Some(a), Some(qty)) == Ok(Propagate(d, a, OrZero(d.activities[a].completedQty)))
  {
    var c := OrZero(d.activities[a].completedQty);
    var d1 := Submit(d, Some(a), Some(qty)).value;
    assert d1 == Propagate(d, a, c + qty);
    assert CancelledQty(d1.activities[a].completedQty, qty) == c;
    PropagateLastWriteWins(d, a, c + qty, c);
  }

  /**
   * On a consistent store whose activity holds a non-negative quantity,
   * submitting then cancelling the same log restores every record exactly.
   */
  lemma SubmitCancelRestores(d: Db, a: ActivityId, qty: real)
    requires Consistent(d) && a in d.activities
    requires d.activities[a].completedQty.Some? && d.activities[a].completedQty.value >= 0.0
    ensures Submit(d, Some(a), Some(qty)).Ok?
    ensures Cancel(Submit(d, Some(a), Some(qty)).value, Some(a), Some(qty)) == Ok(d)
  {
    SubmitCancelRoundTrip(d, a, qty);
    PropagateCurrentIsIdentity(d, a);
  }

  /**
   * When every activity of a task has a completed quantity between 0 and its
   * target, the task's progress is a percentage between 0 and 100.
   */
  lemma TaskProgressInRange(acts: map<ActivityId, Activity>, t: TaskId)
    requires forall b :: b in acts && acts[b].task == Some(t) ==>
      0.0 <= OrZero(acts[b].completedQty) <= acts[b].targetQty
    ensures 0.0 <= TaskProgress(acts, t) <= 100.0
  {
    var ks := ActivitiesOf(acts, t);
    SumByNonNegative(acts, ks, CompletedOf);
    SumByMono(acts, ks, CompletedOf, TargetOf);
  }

  /** After a submission, the log's performance to date is the activity's new quantity as a percentage of its target. */
  lemma PerformanceAfterSubmit(d: Db, a: ActivityId, qty: real)
    requires Linked(d) && a in d.activities
    ensures Submit(d, Some(a), Some(qty)).Ok?
    ensures PerformanceToDate(Submit(d, Some(a), Some(qty)).value, Some(a))
      == Ok(Ratio(OrZero(d.activities[a].completedQty) + qty, d.activities[a].targetQty))
  {
  }

  /** After a cancellation, the log's performance to date is the floored quantity as a percentage of the target. */
  lemma PerformanceAfterCancel(d: Db, a: ActivityId, qty: real)
    requires Linked(d) && a in d.activities
    ensures Cancel(d, Some(a), Some(qty)).Ok?
    ensures PerformanceToDate(Cancel(d, Some(a), Some(qty)).value, Some(a))
      == Ok(Ratio(CancelledQty(d.activities[a].completedQty, qty), d.activities[a].targetQty))
  {
  }

  /**
   * A project's percentage lies between the least and the greatest progress of
   * its tasks; with no tasks it is 0.
   */
  lemma ProjectPercentBounds(tasks: map<TaskId, Task>, p: ProjectId, lo: real, hi: real)
    requires forall t :: t in tasks && tasks[t].project == Some(p) ==> lo <= tasks[t].progress <= hi
    ensures TasksOf(tasks, p) == {} ==> ProjectPercent(tasks, p) == 0.0
    ensures TasksOf(tasks, p) != {} ==> lo <= ProjectPercent(tasks, p) <= hi
  {
    var ks := TasksOf(tasks, p);
    if ks != {} {
      SumByBounds(tasks, ks, ProgressOf, lo, hi);
      MeanBetween(|ks|, SumBy(tasks, ks, ProgressOf), lo, hi);
    }
  }

  /** A sum within n times [lo, hi], divided by n, lies within [lo, hi]. */
  lemma MeanBetween(n: nat, sum: real, lo: real, hi: real)
    requires n > 0
    requires Times(n, lo) <= sum <= Times(n, hi)
    ensures lo <= sum / (n as real) <= hi
  {
    var m := n as real;
    assert lo * m <= sum <= hi * m;
    assert (sum / m) * m == sum;
  }

  /** When every task of the project has the same progress, the project's percentage is that value. */
  lemma ProjectPercentOfEqualTasks(tasks: map<TaskId, Task>, p: ProjectId, v: real)
    requires TasksOf(tasks, p) != {}
    requires forall t :: t in tasks && tasks[t].project == Some(p) ==> tasks[t].progress == v
    ensures ProjectPercent(tasks, p) == v
  {
    ProjectPercentBounds(tasks, p, v, v);
  }
}
