# Task scheduler and task rules, modelled in Dafny

This project models the core of a Django project-management API:

- the dependency-aware scheduler `calculate_project_schedule` and its helper `handle_multiple_projects` (api/scheduling.py);
- the task rules of api/models.py:
  - `Task.can_start`;
  - `Task.update_dependent_tasks`;
  - `Task.save`, with the same-project check and privacy inheritance;
  - `Dependency.clean`;
  - the uniqueness of (task, logic type) groups and (group, prerequisite) dependencies;
- the post-save handlers of api/signals.py:
  - `handle_task_updates`, which advances dependents and rolls the parent up, cascading upward through `parent.save()`;
  - `update_subtask_privacy`;
- the validators of `TaskSerializer` (api/serializers.py).

The database is an in-memory sequence of task rows, `Domain.Task`. The
dependency groups sit inside the task row, and each group keeps its list of
prerequisite ids. Dates are integer day numbers. `today` and the project
start date are parameters.

Modules, one per source concern:

- `Domain`: the rows and the lookups used everywhere.
- `Readiness`: a pure model of `can_start`, the checks `Task.save` makes, `Dependency.clean` and the uniqueness constraints.
- `SchedulingSpec`: the scheduler's values as functions, plus the lemmas about them:
  - group constraints and the dependency start;
  - user availability;
  - the entry of the i-th dequeued task;
  - the fallback entry.
- `Scheduling`: the scheduler as imperative Dafny. It follows the source's loops:
  - the graph build;
  - the initial queue;
  - the work-queue loop and the release of dependents;
  - the fallback loop;
  - the write-back.

  Every method is proved against `SchedulingSpec`. The order in which Kahn's algorithm dequeues tasks is a ghost output. Given that order, every date the scheduler returns is pinned exactly. The order itself is proved to be:
  - duplicate-free;
  - causal (each task comes after all its prerequisites);
  - the full Kahn fixpoint (a project task is dequeued exactly when all its prerequisites are).
- `Store`: `class TaskStore`, whose `rows` field the save cascade updates in place. A save persists the row, then runs the post-save handlers in registration order. The parent rollup then recursively saves the parent. A ghost rank map witnesses that the parent chain is acyclic, which makes the cascade terminate.
- `Validation`: the serializer validators, as pure functions returning a `Result`.
- `ScheduleExample`: a worked two-task chain. Task A takes 2 days. Task B has one AND group on A and takes 3 days. They are scheduled as A = [d, d + 2] and B = [d + 2, d + 5].

How the source's behaviour is rendered:

- The fallback reads `task.assigned_to.id` (api/scheduling.py:106). An unassigned task that reaches the fallback therefore raises. The model returns `Failure(MissingAssignee)` and leaves the rows unchanged, because the exception occurs before the write-back.
- The two branches at api/scheduling.py:71-76 compute the same start.
- A busy user's availability is never advanced. A user is busy when their first incomplete task is in another project. Their availability is therefore always the project start (`SchedulingSpec.Availability`).
- The fallback never advances availability, and it ignores dependencies.
- An exception raised inside the cascade stops it where it is raised. The rows already saved stay saved, because no transaction is modelled.
- The rows satisfy the database's integrity: primary keys are unique and every parent reference names a stored row (`Domain.ParentsExist`). The scheduler and the store require this of their input and keep it.
- The write-back saves each stamped row through `Task.save`. A row whose parent is in another project raises there, and the rows written back before it stay saved. A row later in the table that the write-back has not reached keeps its old dates.

## Model

| member | source | states |
|---|---|---|
| Domain.FlatDeps | api/scheduling.py:31-33 | the collected prerequisite ids are exactly those of the task's groups, group by group, with duplicates kept |
| Domain.FlatDepsConcat | api/scheduling.py:31-33 | collecting over two lists of groups is the concatenation of collecting over each, so the groups contribute in order |
| Domain.FlatDepsSingle | api/scheduling.py:32-33 | one group contributes exactly its references, one per Dependency row, duplicates included |
| Domain.Find | api/scheduling.py:18 | the row found has the requested id and is stored; nothing is found exactly when no row has that id |
| Domain.FindAt | api/scheduling.py:18 | with unique ids, looking up a stored row's id returns that row |
| Readiness.CompletedStatus | api/models.py:65 | one completion flag per prerequisite reference, in order |
| Readiness.All | api/models.py:66 | Python's `all`: true iff every element is true |
| Readiness.Any | api/models.py:68 | Python's `any`: true iff some element is true, so false on an empty list |
| Readiness.CanStart | api/models.py:63-70 | true iff every group is satisfied (AND: all prerequisites completed; OR: at least one is); true with no groups; false with an empty OR group; true when every group is an empty AND group |
| Readiness.CanStartReadsCompletion | api/models.py:63-70 | readiness depends on nothing but the prerequisites' completion flags |
| Readiness.PrepareSave | api/models.py:56-61 | refused with a project-mismatch error iff the parent is in another project; otherwise the row is unchanged except that a subtask takes its parent's privacy |
| Readiness.Clean | api/models.py:94-98 | passes iff the prerequisite is in the same project and is not the task itself; the cross-project error takes precedence over the self-dependency error |
| Readiness.AddGroup | api/models.py:87-88 | a second group with the same logic type on one task is refused; otherwise an empty group is appended and well-formedness is kept |
| Readiness.AddDependency | api/models.py:100-101 | a second reference to the same prerequisite in one group is refused; otherwise it is appended and well-formedness is kept |
| SchedulingSpec.ProjectTasks | api/scheduling.py:14-17 | exactly the stored tasks of the project, with unique ids when the store has them |
| SchedulingSpec.Pending | api/scheduling.py:35-37 | the in-degree counts one per prerequisite reference not yet scheduled and is at most the number of references |
| SchedulingSpec.PendingZero | api/scheduling.py:97-99 | the in-degree is zero iff every prerequisite is scheduled |
| SchedulingSpec.PendingAdd | api/scheduling.py:97-98 | scheduling a task lowers a dependent's in-degree by exactly its number of references to that task |
| SchedulingSpec.GroupDates | api/scheduling.py:52-56 | the dates collected are exactly the end dates of the group's prerequisites that already have an entry |
| SchedulingSpec.GroupDatesFrame | api/scheduling.py:52-56 | the collected dates depend only on the entries of the group's prerequisites |
| SchedulingSpec.MaxOf | api/scheduling.py:60 | Python's `max`: an element of the list that is at least every element |
| SchedulingSpec.MinOf | api/scheduling.py:62 | Python's `min`: an element of the list that is at most every element |
| SchedulingSpec.GroupStart | api/scheduling.py:58-62 | no constraint iff no prerequisite has an entry; AND gives the latest scheduled end and OR the earliest |
| SchedulingSpec.DependencyStartBounds | api/scheduling.py:50-64 | the dependency start is at least the project start and every group constraint, and equals the project start or one of the constraints |
| SchedulingSpec.DependencyStartFrame | api/scheduling.py:50-64 | the dependency start reads only the entries of the task's prerequisites |
| SchedulingSpec.CurrentProject | api/scheduling.py:7-10 | none iff the user has no incomplete task; otherwise the project of the user's first incomplete task |
| SchedulingSpec.NextFreeFrame | api/scheduling.py:92-94 | a user's next free day depends only on the entries of the tasks already dequeued |
| SchedulingSpec.QueuePhaseFrame | api/scheduling.py:103-112 | entries added for tasks outside the dequeue order leave every queue entry valid |
| SchedulingSpec.QueueStartFrame | api/scheduling.py:66-82 | a queued start depends only on the entries of the prerequisites and of the earlier dequeued tasks |
| SchedulingSpec.QueuePhaseStep | api/scheduling.py:45-94 | recording the next dequeued task, with start `max(dependency start, user start)` and end `start + duration`, keeps every earlier entry valid |
| SchedulingSpec.Stamped | api/scheduling.py:115-119 | a row with an entry gets that entry's start and end dates; no other field changes |
| SchedulingSpec.QueueStartBounds | api/scheduling.py:50-82 | a dequeued task ends `duration` days after its start, starts no earlier than the project start, no earlier than the end of every prerequisite of an AND group (all of which are scheduled), and no earlier than the end of some prerequisite of each non-empty OR group |
| SchedulingSpec.QueueStartWithoutAvailability | api/scheduling.py:71-82 | an unassigned dequeued task, or one whose user is busy on another project, starts exactly at its dependency start |
| SchedulingSpec.QueueStartAfterAvailability | api/scheduling.py:67-82 | an assigned dequeued task never starts before its user's availability |
| SchedulingSpec.NextFreeAfter | api/scheduling.py:92-94 | after one of a user's tasks ends, the user is not free again until the following day |
| SchedulingSpec.SameUserNoOverlap | api/scheduling.py:82-94 | two dequeued tasks of a user who is not busy elsewhere never overlap: the later one starts at least a day after the earlier one ends |
| SchedulingSpec.KahnSetIsLeast | api/scheduling.py:43-101 | every dequeued task lies in every set that is closed under "all my prerequisites are in it" |
| SchedulingSpec.CycleNeverDequeued | api/scheduling.py:103-112 | no task of a dependency cycle is ever dequeued, so cycles always reach the fallback |
| Scheduling.BuildGraph | api/scheduling.py:30-38 | the dependents map records each reference once per Dependency row, and the in-degree of each task is its total number of references |
| Scheduling.AddReferences | api/scheduling.py:35-37 | each reference of a task appends that task to its prerequisite's dependents and raises its in-degree by one |
| Scheduling.GroupDeps | api/scheduling.py:31-33 | the collected prerequisites are the task's references, group by group |
| Scheduling.InitialQueue | api/scheduling.py:43 | the initial queue holds, without repetition, exactly the project tasks whose in-degree is zero |
| Scheduling.DependencyStartOf | api/scheduling.py:50-64 | the accumulated dependency start is the dependency start |
| Scheduling.ReleaseDependents | api/scheduling.py:97-100 | each dependent's in-degree drops by its references to the dequeued task; exactly those reaching zero are appended, the queue stays duplicate-free and its existing prefix is kept |
| Scheduling.AvailabilityStep | api/scheduling.py:92-94 | after a dequeued task, availability is the task's end plus one for its user when not busy elsewhere, and unchanged otherwise |
| Scheduling.Fallback | api/scheduling.py:103-112 | succeeds iff every task left without an entry is assigned; each such task starts at its user's availability and runs for its duration; earlier entries are untouched |
| Scheduling.WriteBack | api/scheduling.py:114-120 | the rows with an entry are stamped with its dates and saved through `Task.save` in table order: each takes the privacy of its parent as stored at that moment (rows earlier in the table already written back); the first row whose parent is in another project raises the project-mismatch error and stops the loop, with the rows before it saved and the rest untouched; it passes iff no row with an entry has such a parent |
| Scheduling.WriteBackSave | api/scheduling.py:116-120 | saving the next stamped row through `Task.save` is refused iff its parent is in another project; otherwise the written-back prefix grows by that row |
| Scheduling.ProjectRows | api/scheduling.py:114-120 | when the entries cover exactly the project's tasks, a refused write-back row is exactly a project row whose parent is in another project |
| Scheduling.HeadStart | api/scheduling.py:66-82 | the start of the dequeued task is the queued start; availability is advanced iff the task is assigned to a user who is not busy elsewhere |
| Scheduling.ScheduleHead | api/scheduling.py:82-94 | the dequeued task gets its entry, the queue-phase contract now holds for the extended order, and availability matches the extended order |
| Scheduling.AvailabilityAdvance | api/scheduling.py:92-94 | the availability update tracks the availability function over the extended order |
| Scheduling.ProcessHead | api/scheduling.py:45-101 | one turn of the loop keeps the loop invariant, dequeues an unscheduled project task and strictly reduces the unscheduled tasks |
| Scheduling.HeadReady | api/scheduling.py:46-47 | the queue head is an unscheduled project task whose prerequisites all have entries |
| Scheduling.ReleaseEffect | api/scheduling.py:97-100 | after the release, every in-degree counts the unscheduled prerequisite references, and it is zero exactly for queued or scheduled tasks |
| Scheduling.InitialState | api/scheduling.py:43 | the initial queue and in-degrees establish the loop invariant |
| Scheduling.ExhaustedQueue | api/scheduling.py:45 | once the queue is empty, the dequeued tasks are exactly the Kahn fixpoint |
| Scheduling.QueuePhase | api/scheduling.py:24-101 | the work-queue loop produces entries for exactly the dequeued tasks, meeting the queue-phase contract, with a dequeue order that is the Kahn fixpoint |
| Scheduling.FallbackKeepsQueuePhase | api/scheduling.py:103-112 | after the fallback, every project task has exactly one entry; queue entries stay valid and every other task has its fallback entry |
| Scheduling.CalculateProjectSchedule | api/scheduling.py:12-122 | the dequeue order is duplicate-free, causal and the Kahn fixpoint; an unassigned never-dequeued task fails with the rows unchanged; otherwise every project task has one entry, pinned as a queue or fallback entry, and the entries are written back as `WriteBack` states; it succeeds iff, besides, no project task has a parent in another project, and then returns those entries |
| Validation.HasPending | api/serializers.py:45-49 | true iff some task of the user is incomplete with an end date on or after today |
| Validation.ValidateAssignedTo | api/serializers.py:43-51 | a user with such a pending task is refused; anyone else, and no user, is returned unchanged |
| Validation.HasOpenSubtask | api/serializers.py:56 | true iff some subtask of the task is incomplete |
| Validation.Validate | api/serializers.py:53-61 | completing an existing task is refused while a subtask is open, and then while it cannot start; any other data is returned unchanged |
| Validation.ValidateDuration | api/serializers.py:37 | a duration is accepted iff it is at least 1 |
| Validation.AcceptedCompletion | api/serializers.py:53-61 | an accepted completion has every subtask completed and every dependency group satisfied |
| Store.Written | api/models.py:61 | persisting replaces the stored row with that id, or appends the row when the id is new |
| Store.Replace | api/models.py:61 | every row with the id is replaced; the length is kept |
| Store.WrittenIds | api/models.py:61 | after a write, the stored ids are the old ids plus the written one |
| Store.WrittenDistinct | api/models.py:61 | a write keeps primary keys unique |
| Store.WrittenParents | api/models.py:57-61 | a write of a row whose parent exists keeps every parent reference valid |
| Store.Subtasks | api/signals.py:19-20 | exactly the stored rows whose parent is the given task |
| Store.CountCompleted | api/signals.py:19-21 | at most the number of subtasks, and equal to it iff all are completed |
| Store.AnyInProgress | api/signals.py:31 | true iff some subtask is in progress |
| Store.Rollup | api/signals.py:18-34 | the parent is completed iff every subtask is; its status is COMPLETED iff it is completed, IN_PROGRESS iff not completed and some subtask is in progress, NOT_STARTED otherwise; no other field changes |
| Domain.ParentOf | api/models.py:57 | the parent row is read exactly when the task has a parent, and it has the parent's id |
| Store.SameShapeKeeps | api/signals.py:7-42 | changing only completion, status and privacy keeps the stored ids, unique keys, parent references and the parent-chain ranking |
| Store.SameFlagsSameCompletion | api/models.py:63-70 | changing statuses and privacy alone leaves every completion lookup unchanged, so readiness is unaffected |
| Store.ParentProjectKept | api/models.py:57-58 | changing statuses and privacy alone leaves every parent's project unchanged |
| Store.TaskStore.Persist | api/models.py:56-61 | the row is refused iff its parent is in another project, with the store unchanged; otherwise it is written with its parent's privacy |
| Store.TaskStore.UpdateDependentTasks | api/models.py:72-77 | succeeds iff no qualifying dependent has a parent in another project; then exactly the dependents that reference the task, are NOT_STARTED and can start become IN_PROGRESS; pass or fail, statuses move only from NOT_STARTED to IN_PROGRESS, only privacy inherited from a parent changes besides, and completion flags and all other fields are untouched |
| Store.TaskStore.AdvanceDependents | api/signals.py:11-12 | saving an incomplete task leaves the store unchanged; saving a completed one advances its dependents as above, moving statuses only from NOT_STARTED to IN_PROGRESS |
| Store.TaskStore.UpdateSubtaskPrivacy | api/signals.py:38-42 | exactly the direct subtasks take the task's privacy; every other row, grandchildren included, is unchanged; no status changes |
| Store.TaskStore.Save | api/models.py:56-61 | `Task.save` followed by the post-save handlers of api/signals.py: a save refused for a parent in another project changes nothing; otherwise the cascade keeps the store well-formed and keeps the saved task's completion flag; completion changes only on its ancestors, and statuses only on its ancestors or, when the saved task is completed, from NOT_STARTED to IN_PROGRESS; on success the stored parent obeys the rollup rule over its stored subtasks: completed iff all are, COMPLETED iff completed, IN_PROGRESS iff not completed and some subtask is IN_PROGRESS, NOT_STARTED otherwise |
| Store.TaskStore.PostSave | api/signals.py:7-42 | the post-save handlers keep the store well-formed; completion changes only on ancestors, and statuses only on ancestors or, after a completed task, from NOT_STARTED to IN_PROGRESS; on success the stored parent obeys the rollup rule for completion and status |
| Store.TaskStore.SaveParent | api/signals.py:15-36 | on success the stored parent holds the completion and status of `Rollup` of its row and subtasks as they stood before, and obeys the rollup rule over its stored subtasks; completion changes only on ancestors, statuses only on ancestors or, when the subtask is completed, from NOT_STARTED to IN_PROGRESS |
| Store.ParentRollupResult | api/signals.py:18-36 | after the parent's save, its row holds the recomputed completion and status, and both agree with its stored subtasks by the rollup rule |
| Store.ParentRowSaved | api/signals.py:25-36 | the parent's own save leaves its row with the recomputed completion and status, since a COMPLETED parent is never advanced |
| Store.SubtasksKept | api/signals.py:36 | the parent's save leaves its subtasks' completion unchanged, and their statuses too unless the parent completed |
| Store.AgreedRollup | api/signals.py:18-34 | a parent holding the rollup of subtasks that agree with the stored ones obeys the rollup rule over the stored ones |
| Store.AgreeDone | api/signals.py:19-21 | subtasks that agree row by row are all completed together |
| Store.AgreeInProgress | api/signals.py:31 | subtasks that agree row by row have an IN_PROGRESS member together |
| Store.RollupNeedsSubtask | api/signals.py:15-21 | the saved subtask is among the parent's stored subtasks, so the parent comes out completed only if that subtask is completed |
| Store.AdvanceChange | api/signals.py:11-12 | the dependents' advancement changes statuses only when the saved task is completed, and keeps the saved row as stored |
| Store.AdvancedOnly | api/models.py:72-77 | wherever the dependents' loop stops, the rows it changed were NOT_STARTED and are now IN_PROGRESS |
| Store.WrittenStored | api/models.py:61 | a row just written is stored as written |
| Store.RolledUpKept | api/signals.py:38-42 | the privacy push-down keeps the parent's rollup valid |
| Store.SaveFinish | api/signals.py:7-42 | the stages of a save compose: flags change only on ancestors, statuses only on ancestors or by advancement, and the parent's rollup survives the privacy push-down |
| Store.ChangedTrans | api/signals.py:36 | changes confined to ancestors, or to advancement, compose along the upward cascade |
| ScheduleExample.ChainOrder | api/scheduling.py:43-101 | for A and then B with an AND group on A, Kahn's algorithm dequeues A, then B |
| ScheduleExample.ChainSchedule | api/scheduling.py:50-83 | from day d, unassigned A (2 days) and B (AND on A, 3 days) get A = [d, d + 2] and B = [d + 2, d + 5] |

## Left out

- api/views.py, api/urls.py, cfehome/urls.py and api/admin.py: HTTP routing, permission querysets, responses and the admin UI. They contain no algorithmic content.
- The test client and authentication in api/tests.py. The privacy assertion at api/tests.py:91-96 corresponds to `Store.TaskStore.UpdateSubtaskPrivacy`. The AND-group assertion at api/tests.py:99-128 corresponds to `Readiness.CanStart`.
- The ORM is replaced by sequences of rows:
  - querysets, `prefetch_related`, `count()`, `exists()`, `save()` and `update()`;
  - the model's default ordering (`-project__start_date`, `title`). The order of the row sequence stands for it, so "first" in `handle_multiple_projects` means first in that sequence.
- Signal dispatch, and the schedule trigger `update_schedule_on_change` (api/signals.py:44-57). The trigger only finds a project and calls the scheduler.
- Saves that re-fire the post-save handlers:
  - the scheduler's write-back `task.save()` (api/scheduling.py:120);
  - the saves of the advanced dependents inside `update_dependent_tasks` (api/models.py:77).

  Both are modelled as the plain `Task.save` (`Readiness.PrepareSave`: the same-project check and privacy inheritance, then the write), without the post-save handlers they fire.
- Concurrency and transactions. There is no rollback, so rows saved before an exception stay saved.
- `timezone.now()` is the parameter `today`. Real `date` and `timedelta` values are integer day numbers.
- The unused `task_order` list (api/scheduling.py:27, 40, 101).
- `handle_task_updates` reads the cached `instance.parent_task` object. The model reads the parent's current stored row, which is what the rollup saves when no stale copy is involved.
- `update_dependent_tasks` walks `dependent_tasks`, which holds one entry per Dependency row. The model walks the stored rows once each, in storage order. A second reference from the same task finds it already IN_PROGRESS in the source, so it changes nothing there either.
- `Dependency.clean` is not called by any serializer in the source. The model gives it as a standalone check (`Readiness.Clean`).
- `validate_assigned_to` is unreachable through the serializer. `assigned_to` is declared read-only (api/serializers.py:21), so the framework never calls it. The model gives it as a standalone check.
- Scheduling.CalculateProjectSchedule: the FIFO order in which ready tasks are dequeued is not pinned. The order is proved to be duplicate-free, causal and the Kahn fixpoint, and given that order every date is exact. Ties between tasks that become ready together are not fixed to the deque's order.
- Store.TaskStore.UpdateDependentTasks: the new privacy of a qualifying dependent is not tied to its parent's value. Only the status change and the fact that privacy changes nowhere else are stated. A refused save states that it was refused, and that statuses moved only from NOT_STARTED to IN_PROGRESS, but not which had already moved.
- Store.TaskStore.Save: which dependents the cascade advances, and the new privacy of any row, are not pinned. The contract bounds where completion may change (the ancestors) and where statuses may change (the ancestors, or NOT_STARTED to IN_PROGRESS after a completed save). It states the rollup rule for the direct parent only, not for ancestors further up, whose subtasks may be advanced after their own rollup. The save requires a ghost rank that orders the parent chain. On a cyclic chain the source recurses without end.
- Store.TaskStore.PostSave and Store.TaskStore.SaveParent require the saved row to be stored as given, which is what `post_save` sees.
