/**
 * The Daily Performance Log document and the store of Project Activities,
 * Tasks and Projects it updates in place. Each method performs the hook's
 * steps in order (load, change fields, save) and is proved to leave the
 * store in the state given by the pure rules of module Propagation.
 */
module PerformanceLog {
  import opened Wrappers
  import opened Propagation

  /** The three tables, updated in place by the log's hooks. */
  class Store {
    var activities: map<ActivityId, Activity>
    var tasks: map<TaskId, Task>
    var projects: map<ProjectId, Project>

    /** A snapshot of the tables. */
    function State(): Db
      reads this
    {
      Db(activities, tasks, projects)
    }

    constructor (d: Db)
      ensures State() == d
    {
      activities, tasks, projects := d.activities, d.tasks, d.projects;
    }

    /**
     * Writes `completed` on activity `a`, recomputes its progress and saves
     * it; then, if it has a Task, recomputes and saves the task's progress
     * from the sums over all activities of that task; then, if that task
     * has a Project, recomputes and saves the project's mean.
     */
    method SetCompletedAndPropagate(a: ActivityId, completed: real)
      requires Linked(State()) && a in activities
      modifies this
      ensures State() == Propagate(old(State()), a, completed)
    {
      var activity := activities[a];
      activity := activity.(completedQty := Some(completed));
      if activity.targetQty != 0.0 {
        activity := activity.(progress := completed / activity.targetQty * 100.0);
      } else {
        activity := activity.(progress := 0.0);
      }
      activities := activities[a := activity];

      if activity.task.Some? {
        var t := activity.task.value;
        var task := tasks[t];
        var totalTarget := TotalTarget(activities, t);
        var totalCompleted := TotalCompleted(activities, t);
        if totalTarget != 0.0 {
          task := task.(progress := totalCompleted / totalTarget * 100.0);
        } else {
          task := task.(progress := 0.0);
        }
        tasks := tasks[t := task];

        if task.project.Some? {
          var p := task.project.value;
          var project := projects[p];
          var members := TasksOf(tasks, p);
          var avgProgress := 0.0;
          if members != {} {
            avgProgress := Sums.SumBy(tasks, members, ProgressOf) / (|members| as real);
          }
          project := project.(percentComplete := avgProgress);
          projects := projects[p := project];
        }
      }
    }
  }

  /** Outcome of a hook: done, or refused before anything was written. */
  datatype Outcome = Pass | Fail(error: Error)

  /** A submittable log of a quantity completed on one Project Activity. */
  class DailyPerformanceLog {
    var projectActivity: Option<ActivityId>
    var qtyCompleted: Option<real>
    var performanceToDate: real

    constructor (link: Option<ActivityId>, qty: Option<real>)
      ensures projectActivity == link && qtyCompleted == qty && performanceToDate == 0.0
    {
      projectActivity, qtyCompleted, performanceToDate := link, qty, 0.0;
    }

    /** Adds the log's quantity to its activity and pushes the change up to task and project. */
    method UpdateProjectActivity(db: Store) returns (r: Outcome)
      requires Linked(db.State())
      modifies db
      ensures match Submit(old(db.State()), projectActivity, qtyCompleted)
        case Err(e) => r == Fail(e) && db.State() == old(db.State())
        case Ok(d) => r == Pass && db.State() == d
    {
      if projectActivity.None? {
        return Fail(ActivityNotLinked);
      }
      var a := projectActivity.value;
      if a !in db.activities {
        return Fail(ActivityNotFound);
      }
      if qtyCompleted.None? {
        return Fail(QuantityNotSet);
      }
      var current := db.activities[a].completedQty;
      var completed := (if current.Some? then current.value else 0.0) + qtyCompleted.value;
      db.SetCompletedAndPropagate(a, completed);
      return Pass;
    }

    /** Takes the log's quantity off its activity, never below 0, and pushes the change up. */
    method CancelUpdateProjectActivity(db: Store) returns (r: Outcome)
      requires Linked(db.State())
      modifies db
      ensures match Cancel(old(db.State()), projectActivity, qtyCompleted)
        case Err(e) => r == Fail(e) && db.State() == old(db.State())
        case Ok(d) => r == Pass && db.State() == d
    {
      if projectActivity.None? {
        return Fail(ActivityNotLinked);
      }
      var a := projectActivity.value;
      if a !in db.activities {
        return Fail(ActivityNotFound);
      }
      if qtyCompleted.None? {
        return Fail(QuantityNotSet);
      }
      var current := db.activities[a].completedQty;
      var completed := (if current.Some? then current.value else 0.0) - qtyCompleted.value;
      if completed < 0.0 {
        completed := 0.0;
      }
      db.SetCompletedAndPropagate(a, completed);
      return Pass;
    }

    /** Copies the linked activity's current progress onto the log. */
    method UpdateActivityPerformanceToDate(db: Store) returns (r: Outcome)
      modifies this
      ensures projectActivity == old(projectActivity) && qtyCompleted == old(qtyCompleted)
      ensures match PerformanceToDate(db.State(), projectActivity)
        case Err(e) => r == Fail(e) && performanceToDate == old(performanceToDate)
        case Ok(v) => r == Pass && performanceToDate == v
    {
      if projectActivity.None? {
        return Fail(ActivityNotLinked);
      }
      var a := projectActivity.value;
      if a !in db.activities {
        return Fail(ActivityNotFound);
      }
      performanceToDate := db.activities[a].progress;
      return Pass;
    }

    /** on_submit: propagate the quantity, then copy the activity's progress onto the log. */
    method OnSubmit(db: Store) returns (r: Outcome)
      requires Linked(db.State())
      modifies this, db
      ensures projectActivity == old(projectActivity) && qtyCompleted == old(qtyCompleted)
      ensures match Submit(old(db.State()), projectActivity, qtyCompleted)
        case Err(e) => r == Fail(e) && db.State() == old(db.State()) && performanceToDate == old(performanceToDate)
        case Ok(d) => r == Pass && db.State() == d && performanceToDate == d.activities[projectActivity.value].progress
    {
      r := UpdateProjectActivity(db);
      if r.Fail? {
        return;
      }
      r := UpdateActivityPerformanceToDate(db);
    }

    /** on_cancel: reverse the quantity, then copy the activity's progress onto the log. */
    method OnCancel(db: Store) returns (r: Outcome)
      requires Linked(db.State())
      modifies this, db
      ensures projectActivity == old(projectActivity) && qtyCompleted == old(qtyCompleted)
      ensures match Cancel(old(db.State()), projectActivity, qtyCompleted)
        case Err(e) => r == Fail(e) && db.State() == old(db.State()) && performanceToDate == old(performanceToDate)
        case Ok(d) => r == Pass && db.State() == d && performanceToDate == d.activities[projectActivity.value].progress
    {
      r := CancelUpdateProjectActivity(db);
      if r.Fail? {
        return;
      }
      r := UpdateActivityPerformanceToDate(db);
    }
  }
}
