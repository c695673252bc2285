/** The TaskSerializer validators of api/serializers.py: the completion
    preconditions, the assignee overload check and the minimum duration.
    They only read the stored tasks, then either refuse or hand back their
    input unchanged. */
module Validation {
  import opened Domain
  import opened Readiness

  /** The fields of an update request the validators look at; absent fields
      are `None`. */
  datatype TaskData = TaskData(isCompleted: Option<bool>, durationDays: Option<int>, assignee: Option<nat>)

  /** `data.get('is_completed', False)`. */
  function Completing(data: TaskData): bool
  {
    data.isCompleted == Some(true)
  }

  /** The `assigned_tasks.filter(is_completed=False, end_date__gte=today)`
      condition; a task without an end date is not matched. */
  predicate PendingFor(t: Task, u: nat, today: int)
  {
    t.assignee == Some(u) && !t.isCompleted && t.endDate.Some? && t.endDate.value >= today
  }

  /** The queryset's `.exists()`. */
  function HasPending(rows: seq<Task>, u: nat, today: int): (r: bool)
    ensures r <==> exists k :: 0 <= k < |rows| && PendingFor(rows[k], u, today)
  {
    if rows == [] then false
    else if PendingFor(rows[|rows| - 1], u, today) then true
    else
      var r := HasPending(rows[..|rows| - 1], u, today);
      assert forall k :: 0 <= k < |rows| - 1 ==> rows[..|rows| - 1][k] == rows[k];
      r
  }

  /** `validate_assigned_to`: a user with a pending task is refused; no user
      is always accepted. `today` stands for `timezone.now().date()`. */
  function ValidateAssignedTo(rows: seq<Task>, user: Option<nat>, today: int): (r: Result<Option<nat>>)
    ensures r.Failure? <==> user.Some? && exists k :: 0 <= k < |rows| && PendingFor(rows[k], user.value, today)
    ensures r.Failure? ==> r.error == UserHasPendingTasks
    ensures r.Success? ==> r.value == user
    ensures user.None? ==> r == Success(None)
  {
    match user
    case None => Success(None)
    case Some(u) => if HasPending(rows, u, today) then Failure(UserHasPendingTasks) else Success(user)
  }

  predicate OpenSubtask(t: Task, id: nat)
  {
    t.parent == Some(id) && !t.isCompleted
  }

  /** `instance.subtasks.filter(is_completed=False).exists()`. */
  function HasOpenSubtask(rows: seq<Task>, id: nat): (r: bool)
    ensures r <==> exists k :: 0 <= k < |rows| && OpenSubtask(rows[k], id)
  {
    if rows == [] then false
    else if OpenSubtask(rows[|rows| - 1], id) then true
    else
      var r := HasOpenSubtask(rows[..|rows| - 1], id);
      assert forall k :: 0 <= k < |rows| - 1 ==> rows[..|rows| - 1][k] == rows[k];
      r
  }

  /** `TaskSerializer.validate`: completing an existing task is refused while
      one of its subtasks is open, and then while it cannot start; anything
      else passes through unchanged. */
  function Validate(rows: seq<Task>, instance: Option<Task>, data: TaskData): (r: Result<TaskData>)
    ensures r.Success? ==> r.value == data
    ensures instance.None? || !Completing(data) ==> r == Success(data)
    ensures r == Failure(SubtasksIncomplete) <==>
      instance.Some? && Completing(data) &&
      exists k :: 0 <= k < |rows| && OpenSubtask(rows[k], instance.value.id)
    ensures r == Failure(DependenciesNotMet) <==>
      && instance.Some? && Completing(data)
      && (forall k :: 0 <= k < |rows| ==> !OpenSubtask(rows[k], instance.value.id))
      && !CanStart(rows, instance.value.groups)
    ensures r.Failure? ==> r.error == SubtasksIncomplete || r.error == DependenciesNotMet
  {
    if instance.Some? && Completing(data) then
      if HasOpenSubtask(rows, instance.value.id) then Failure(SubtasksIncomplete)
      else if !CanStart(rows, instance.value.groups) then Failure(DependenciesNotMet)
      else Success(data)
    else Success(data)
  }

  /** `duration_days` with `min_value: 1`. */
  function ValidateDuration(d: int): (r: Result<nat>)
    ensures r.Success? <==> d >= 1
    ensures r.Success? ==> r.value == d
    ensures r.Failure? ==> r.error == DurationTooSmall
  {
    if d < 1 then Failure(DurationTooSmall) else Success(d)
  }

  /** A completion the serializer lets through is one the rollup agrees
      with: no subtask is open, and every dependency group is satisfied. */
  lemma AcceptedCompletion(rows: seq<Task>, instance: Task, data: TaskData)
    requires Completing(data) && Validate(rows, Some(instance), data).Success?
    ensures forall k :: 0 <= k < |rows| && rows[k].parent == Some(instance.id) ==> rows[k].isCompleted
    ensures forall k :: 0 <= k < |instance.groups| ==> Satisfied(rows, instance.groups[k])
  {
  }
}
