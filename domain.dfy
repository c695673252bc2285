/** Entities of the task manager (api/models.py), as values.
    Dates are integer day numbers; ids are the database primary keys. */
module Domain {

  datatype Option<T> = None | Some(value: T)

  datatype Result<T> = Success(value: T) | Failure(error: Error)

  datatype Outcome = Pass | Fail(error: Error)

  /** The exceptions the core raises. */
  datatype Error =
    | SubtaskProjectMismatch    // Task.save: parent in another project
    | CrossProjectDependency    // Dependency.clean: prerequisite in another project
    | SelfDependency            // Dependency.clean: task depends on itself
    | DuplicateGroup            // unique (task, logic_type)
    | DuplicateDependency       // unique (group, depends_on)
    | MissingAssignee           // scheduler fallback reads `.id` of no assignee
    | SubtasksIncomplete        // completing a task with open subtasks
    | DependenciesNotMet        // completing a task that cannot start
    | UserHasPendingTasks       // assigning an overloaded user
    | DurationTooSmall          // duration_days below 1

  datatype Logic = And | Or

  datatype Status = NotStarted | InProgress | Completed

  /** A dependency group: its logic and the ids of its prerequisites,
      one entry per Dependency row. */
  datatype Group = Group(logic: Logic, deps: seq<nat>)

  datatype Task = Task(
    id: nat,
    project: nat,
    parent: Option<nat>,
    duration: nat,
    isPrivate: bool,
    assignee: Option<nat>,
    isCompleted: bool,
    status: Status,
    groups: seq<Group>,
    startDate: Option<int>,
    endDate: Option<int>)

  function Max(a: int, b: int): int { if a < b then b else a }

  /** All prerequisite ids of a list of groups, group by group, duplicates kept. */
  function FlatDeps(gs: seq<Group>): (r: seq<nat>)
    ensures forall k, d :: 0 <= k < |gs| && d in gs[k].deps ==> d in r
    ensures forall d :: d in r ==> exists k :: 0 <= k < |gs| && d in gs[k].deps
  {
    if gs == [] then [] else FlatDeps(gs[..|gs| - 1]) + gs[|gs| - 1].deps
  }

  lemma {:induction false} FlatDepsConcat(a: seq<Group>, b: seq<Group>)
    ensures FlatDeps(a + b) == FlatDeps(a) + FlatDeps(b)
  {
    if b == [] {
      assert a + b == a;
    } else {
      var b0, last := b[..|b| - 1], b[|b| - 1];
      assert (a + b)[..|a + b| - 1] == a + b0 && (a + b)[|a + b| - 1] == last;
      calc {
        FlatDeps(a + b);
        FlatDeps(a + b0) + last.deps;
        { FlatDepsConcat(a, b0); }
        FlatDeps(a) + FlatDeps(b0) + last.deps;
        FlatDeps(a) + FlatDeps(b);
      }
    }
  }

  /** One group contributes its references exactly, duplicates included, so
      the collected list has one entry per Dependency row. */
  lemma FlatDepsSingle(g: Group)
    ensures FlatDeps([g]) == g.deps
  {
    assert [g][..0] == [];
  }

  function Ids(rows: seq<Task>): set<nat>
  {
    set t | t in rows :: t.id
  }

  /** The index of the stored row with this id. */
  lemma IndexOf(rows: seq<Task>, id: nat) returns (k: nat)
    requires id in Ids(rows)
    ensures k < |rows| && rows[k].id == id
  {
    var t :| t in rows && t.id == id;
    k :| 0 <= k < |rows| && rows[k] == t;
  }

  /** Primary keys are unique. */
  ghost predicate DistinctIds(rows: seq<Task>)
  {
    forall i, j :: 0 <= i < |rows| && 0 <= j < |rows| && i != j ==> rows[i].id != rows[j].id
  }

  /** The row with the given primary key. */
  function Find(rows: seq<Task>, id: nat): (r: Option<Task>)
    ensures r.Some? ==> r.value in rows && r.value.id == id
    ensures r.None? <==> id !in Ids(rows)
  {
    if rows == [] then None
    else if rows[|rows| - 1].id == id then Some(rows[|rows| - 1])
    else
      assert forall t :: t in rows ==> t in rows[..|rows| - 1] || t == rows[|rows| - 1];
      Find(rows[..|rows| - 1], id)
  }

  lemma {:induction false} FindAt(rows: seq<Task>, k: nat)
    requires DistinctIds(rows) && k < |rows|
    ensures Find(rows, rows[k].id) == Some(rows[k])
  {
    if k < |rows| - 1 {
      FindAt(rows[..|rows| - 1], k);
    }
  }

  /** Every parent reference names a stored task. */
  ghost predicate ParentsExist(rows: seq<Task>)
  {
    forall k :: 0 <= k < |rows| && rows[k].parent.Some? ==> rows[k].parent.value in Ids(rows)
  }

  /** The parent row `Task.save` reads, when the task has a parent. */
  function ParentOf(rows: seq<Task>, t: Task): (r: Option<Task>)
    requires t.parent.Some? ==> t.parent.value in Ids(rows)
    ensures r.Some? <==> t.parent.Some?
    ensures r.Some? ==> r.value.id == t.parent.value
  {
    if t.parent.Some? then Find(rows, t.parent.value) else None
  }

  /** Whether saving `t` is refused for a parent in another project. */
  predicate Mismatch(rows: seq<Task>, t: Task)
    requires t.parent.Some? ==> t.parent.value in Ids(rows)
  {
    t.parent.Some? && Find(rows, t.parent.value).value.project != t.project
  }

  /** Whether the referenced task is completed (`depends_on.is_completed`). */
  function IsDone(rows: seq<Task>, id: nat): bool
  {
    match Find(rows, id)
    case Some(t) => t.isCompleted
    case None => false
  }
}
