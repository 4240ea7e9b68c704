/**
 * The records touched by a Daily Performance Log, and the rules by which a
 * change to one Project Activity's completed quantity is pushed up to its
 * Task and from there to its Project. Everything here is a pure function of
 * a snapshot `Db` of the three tables; the log's methods in module
 * PerformanceLog perform the same updates step by step on a mutable store.
 */
module Propagation {
  import opened Wrappers
  import opened Sums

  type ActivityId = nat
  type TaskId = nat
  type ProjectId = nat

  /** A Project Activity: its Task link, its target, its running total and its derived progress. */
  datatype Activity = Activity(task: Option<TaskId>, targetQty: real, completedQty: Option<real>, progress: real)

  /** A Task: its Project link and its derived progress. */
  datatype Task = Task(project: Option<ProjectId>, progress: real)

  /** A Project: its derived percentage of completion. */
  datatype Project = Project(percentComplete: real)

  /** The three tables, keyed by document name. */
  datatype Db = Db(activities: map<ActivityId, Activity>, tasks: map<TaskId, Task>, projects: map<ProjectId, Project>)

  /**
   * Why a submission or cancellation stops before anything is written: no
   * activity is linked, the linked activity does not exist, or the log's
   * quantity is unset (adding it to a number fails).
   */
  datatype Error = ActivityNotLinked | ActivityNotFound | QuantityNotSet

  datatype Result<T> = Ok(value: T) | Err(error: Error)

  /** Every Task and Project link in the tables names an existing record. */
  ghost predicate Linked(d: Db)
  {
    && (forall a :: a in d.activities && d.activities[a].task.Some? ==> d.activities[a].task.value in d.tasks)
    && (forall t :: t in d.tasks && d.tasks[t].project.Some? ==> d.tasks[t].project.value in d.projects)
  }

  /** A stored quantity, with an unset value read as 0. */
  function OrZero(q: Option<real>): real
  {
    match q
    case None => 0.0
    case Some(v) => v
  }

  /** `part` as a percentage of `whole`, and 0 when `whole` is 0. */
  function Ratio(part: real, whole: real): (r: real)
    ensures whole == 0.0 ==> r == 0.0
    ensures whole != 0.0 ==> r * whole == part * 100.0
    ensures 0.0 < whole && 0.0 <= part <= whole ==> 0.0 <= r <= 100.0
  {
    if whole != 0.0 then part / whole * 100.0 else 0.0
  }

  /** The completed quantity after submitting a log of `qty`: no floor is applied. */
  function SubmittedQty(current: Option<real>, qty: real): (r: real)
    ensures r - qty == OrZero(current)
  {
    OrZero(current) + qty
  }

  /** The completed quantity after cancelling a log of `qty`: the difference, floored at 0. */
  function CancelledQty(current: Option<real>, qty: real): (r: real)
    ensures r >= 0.0
    ensures OrZero(current) >= qty ==> r == OrZero(current) - qty
    ensures OrZero(current) < qty ==> r == 0.0
  {
    var v := OrZero(current) - qty;
    if v < 0.0 then 0.0 else v
  }

  /** An activity's progress: its completed quantity as a percentage of its target. */
  function ActivityProgress(x: Activity): real
  {
    Ratio(OrZero(x.completedQty), x.targetQty)
  }

  function TargetOf(x: Activity): real { x.targetQty }

  function CompletedOf(x: Activity): real { OrZero(x.completedQty) }

  function ProgressOf(t: Task): real { t.progress }

  /** The activities whose Task link is `t`. */
  function ActivitiesOf(acts: map<ActivityId, Activity>, t: TaskId): (s: set<ActivityId>)
    ensures forall a :: a in s <==> a in acts && acts[a].task == Some(t)
  {
    set a | a in acts && acts[a].task == Some(t)
  }

  /** The tasks whose Project link is `p`. */
  function TasksOf(tasks: map<TaskId, Task>, p: ProjectId): (s: set<TaskId>)
    ensures forall t :: t in s <==> t in tasks && tasks[t].project == Some(p)
  {
    set t | t in tasks && tasks[t].project == Some(p)
  }

  /** Sum of target_qty over the activities of task `t`, 0 when there are none. */
  function TotalTarget(acts: map<ActivityId, Activity>, t: TaskId): real
  {
    SumBy(acts, ActivitiesOf(acts, t), TargetOf)
  }

  /** Sum of completed_qty over the activities of task `t`, unset values read as 0. */
  function TotalCompleted(acts: map<ActivityId, Activity>, t: TaskId): real
  {
    SumBy(acts, ActivitiesOf(acts, t), CompletedOf)
  }

  /** A task's progress: the summed completed quantity as a percentage of the summed target. */
  function TaskProgress(acts: map<ActivityId, Activity>, t: TaskId): real
  {
    Ratio(TotalCompleted(acts, t), TotalTarget(acts, t))
  }

  /** A project's completion: the unweighted mean of its tasks' progress, 0 when it has none. */
  function ProjectPercent(tasks: map<TaskId, Task>, p: ProjectId): real
  {
    var ks := TasksOf(tasks, p);
    if ks == {} then 0.0 else SumBy(tasks, ks, ProgressOf) / (|ks| as real)
  }

  /**
   * The store after activity `a` gets the completed quantity `completed`:
   * the activity's progress, its task's progress and that task's project's
   * percentage are recomputed; a missing Task or Project link ends the chain.
   */
  function Propagate(d: Db, a: ActivityId, completed: real): (r: Db)
    requires Linked(d)
    requires a in d.activities
    ensures Linked(r)
    ensures r.activities.Keys == d.activities.Keys
    ensures r.tasks.Keys == d.tasks.Keys
    ensures r.projects.Keys == d.projects.Keys
    ensures r.activities[a] == d.activities[a].(completedQty := Some(completed), progress := r.activities[a].progress)
    ensures r.activities[a].progress == ActivityProgress(r.activities[a])
    ensures forall b :: b in d.activities && b != a ==> r.activities[b] == d.activities[b]
    ensures d.activities[a].task.None? ==> r.tasks == d.tasks && r.projects == d.projects
    ensures d.activities[a].task.Some? ==>
      var t := d.activities[a].task.value;
      && r.tasks[t] == d.tasks[t].(progress := TaskProgress(r.activities, t))
      && (forall u :: u in d.tasks && u != t ==> r.tasks[u] == d.tasks[u])
      && (d.tasks[t].project.None? ==> r.projects == d.projects)
      && (d.tasks[t].project.Some? ==>
            var p := d.tasks[t].project.value;
            && r.projects[p] == Project(ProjectPercent(r.tasks, p))
            && (forall q :: q in d.projects && q != p ==> r.projects[q] == d.projects[q]))
  {
    var x := d.activities[a];
    var acts := d.activities[a := x.(completedQty := Some(completed), progress := Ratio(completed, x.targetQty))];
    match x.task
    case None => d.(activities := acts)
    case Some(t) =>
      var tasks := d.tasks[t := d.tasks[t].(progress := TaskProgress(acts, t))];
      match tasks[t].project
      case None => Db(acts, tasks, d.projects)
      case Some(p) => Db(acts, tasks, d.projects[p := d.projects[p].(percentComplete := ProjectPercent(tasks, p))])
  }

  /** on_submit: add the log's quantity to its activity and propagate, or refuse. */
  function Submit(d: Db, link: Option<ActivityId>, qty: Option<real>): (r: Result<Db>)
    requires Linked(d)
    ensures link.None? ==> r == Err(ActivityNotLinked)
    ensures link.Some? && link.value !in d.activities ==> r == Err(ActivityNotFound)
    ensures link.Some? && link.value in d.activities && qty.None? ==> r == Err(QuantityNotSet)
    ensures r.Ok? <==> link.Some? && link.value in d.activities && qty.Some?
    ensures r.Ok? ==> Linked(r.value) && r.value.activities.Keys == d.activities.Keys
    ensures r.Ok? ==> r.value.activities[link.value].completedQty == Some(OrZero(d.activities[link.value].completedQty) + qty.value)
  {
    match link
    case None => Err(ActivityNotLinked)
    case Some(a) =>
      if a !in d.activities then Err(ActivityNotFound)
      else if qty.None? then Err(QuantityNotSet)
      else Ok(Propagate(d, a, SubmittedQty(d.activities[a].completedQty, qty.value)))
  }

  /** on_cancel: take the log's quantity off its activity (floored at 0) and propagate, or refuse. */
  function Cancel(d: Db, link: Option<ActivityId>, qty: Option<real>): (r: Result<Db>)
    requires Linked(d)
    ensures link.None? ==> r == Err(ActivityNotLinked)
    ensures link.Some? && link.value !in d.activities ==> r == Err(ActivityNotFound)
    ensures link.Some? && link.value in d.activities && qty.None? ==> r == Err(QuantityNotSet)
    ensures r.Ok? <==> link.Some? && link.value in d.activities && qty.Some?
    ensures r.Ok? ==> Linked(r.value) && r.value.activities.Keys == d.activities.Keys
    ensures r.Ok? ==> r.value.activities[link.value].completedQty == Some(CancelledQty(d.activities[link.value].completedQty, qty.value))
    ensures r.Ok? ==> r.value.activities[link.value].completedQty.Some? && r.value.activities[link.value].completedQty.value >= 0.0
  {
    match link
    case None => Err(ActivityNotLinked)
    case Some(a) =>
      if a !in d.activities then Err(ActivityNotFound)
      else if qty.None? then Err(QuantityNotSet)
      else Ok(Propagate(d, a, CancelledQty(d.activities[a].completedQty, qty.value)))
  }

  /** update_activity_performance_to_date: the linked activity's current progress, or a refusal. */
  function PerformanceToDate(d: Db, link: Option<ActivityId>): (r: Result<real>)
    ensures r.Ok? <==> link.Some? && link.value in d.activities
    ensures r.Ok? ==> r.value == d.activities[link.value].progress
    ensures link.None? ==> r == Err(ActivityNotLinked)
  {
    match link
    case None => Err(ActivityNotLinked)
    case Some(a) => if a in d.activities then Ok(d.activities[a].progress) else Err(ActivityNotFound)
  }

  /** Every derived field agrees with the quantities it is derived from. */
  ghost predicate Consistent(d: Db)
  {
    && Linked(d)
    && (forall a :: a in d.activities ==> d.activities[a].progress == ActivityProgress(d.activities[a]))
    && (forall t :: t in d.tasks ==> d.tasks[t].progress == TaskProgress(d.activities, t))
    && (forall p :: p in d.projects ==> d.projects[p].percentComplete == ProjectPercent(d.tasks, p))
  }
}
