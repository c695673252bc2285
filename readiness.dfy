/** Readiness and the model-level checks of api/models.py: `Task.can_start`,
    `Task.save`'s parent rules, `Dependency.clean` and the uniqueness
    constraints of DependencyGroup and Dependency. */
module Readiness {
  import opened Domain

  /** `[d.depends_on.is_completed for d in group.dependencies.all()]` */
  function CompletedStatus(rows: seq<Task>, deps: seq<nat>): (r: seq<bool>)
    ensures |r| == |deps|
    ensures forall k :: 0 <= k < |deps| ==> r[k] == IsDone(rows, deps[k])
  {
    if deps == [] then [] else [IsDone(rows, deps[0])] + CompletedStatus(rows, deps[1..])
  }

  /** Python's `all`. */
  function All(bs: seq<bool>): (r: bool)
    ensures r <==> forall k :: 0 <= k < |bs| ==> bs[k]
  {
    if bs == [] then true else bs[0] && All(bs[1..])
  }

  /** Python's `any`: false on the empty list. */
  function Any(bs: seq<bool>): (r: bool)
    ensures r <==> exists k :: 0 <= k < |bs| && bs[k]
  {
    if bs == [] then false else bs[0] || Any(bs[1..])
  }

  /** What one group demands, stated on the prerequisites themselves. */
  ghost predicate Satisfied(rows: seq<Task>, g: Group)
  {
    && (g.logic == And ==> forall d :: d in g.deps ==> IsDone(rows, d))
    && (g.logic == Or ==> exists d :: d in g.deps && IsDone(rows, d))
  }

  /** `Task.can_start`: the groups are checked in order and the first one
      that fails its logic makes the answer false. */
  function CanStart(rows: seq<Task>, groups: seq<Group>): (r: bool)
    ensures r <==> forall k :: 0 <= k < |groups| ==> Satisfied(rows, groups[k])
    ensures groups == [] ==> r
    ensures (exists k :: 0 <= k < |groups| && groups[k] == Group(Or, [])) ==> !r
    ensures (forall k :: 0 <= k < |groups| ==> groups[k] == Group(And, [])) ==> r
  {
    if groups == [] then true
    else
      var status := CompletedStatus(rows, groups[0].deps);
      if groups[0].logic == And && !All(status) then false
      else if groups[0].logic == Or && !Any(status) then false
      else
        assert Satisfied(rows, groups[0]) by {
          if groups[0].logic == Or {
            var k :| 0 <= k < |status| && status[k];
            assert groups[0].deps[k] in groups[0].deps;
          }
        }
        var rest := CanStart(rows, groups[1..]);
        assert forall k :: 1 <= k < |groups| ==> groups[k] == groups[1..][k - 1];
        rest
  }

  /** Two stores that agree on which tasks are completed. */
  ghost predicate SameCompletion(rows: seq<Task>, rows': seq<Task>)
  {
    forall id :: IsDone(rows, id) == IsDone(rows', id)
  }

  /** Readiness reads nothing but the completion flags of the prerequisites. */
  lemma CanStartReadsCompletion(rows: seq<Task>, rows': seq<Task>, groups: seq<Group>)
    requires SameCompletion(rows, rows')
    ensures CanStart(rows, groups) == CanStart(rows', groups)
  {
    forall k | 0 <= k < |groups|
      ensures Satisfied(rows, groups[k]) == Satisfied(rows', groups[k])
    {
    }
  }

  /** `Task.save` (models.py): a subtask whose parent is in another project is
      refused; otherwise the subtask inherits the parent's privacy. */
  function PrepareSave(t: Task, parent: Option<Task>): (r: Result<Task>)
    requires parent.Some? <==> t.parent.Some?
    requires parent.Some? ==> parent.value.id == t.parent.value
    ensures r.Failure? <==> parent.Some? && parent.value.project != t.project
    ensures r.Failure? ==> r.error == SubtaskProjectMismatch
    ensures r.Success? && parent.Some? ==>
      r.value.isPrivate == parent.value.isPrivate && r.value.project == parent.value.project
    ensures r.Success? ==> r.value.(isPrivate := t.isPrivate) == t
    ensures r.Success? && parent.None? ==> r.value == t
  {
    match parent
    case None => Success(t)
    case Some(p) =>
      if p.project != t.project then Failure(SubtaskProjectMismatch)
      else Success(t.(isPrivate := p.isPrivate))
  }

  /** `Dependency.clean`: the prerequisite must be in the group task's project
      and must not be that task itself (checked in this order). */
  function Clean(groupTask: Task, dependsOn: Task): (r: Outcome)
    ensures r.Pass? <==> groupTask.project == dependsOn.project && groupTask.id != dependsOn.id
    ensures r == Fail(CrossProjectDependency) <==> groupTask.project != dependsOn.project
    ensures r == Fail(SelfDependency) <==>
      groupTask.project == dependsOn.project && groupTask.id == dependsOn.id
  {
    if groupTask.project != dependsOn.project then Fail(CrossProjectDependency)
    else if groupTask.id == dependsOn.id then Fail(SelfDependency)
    else Pass
  }

  /** At most one group per (task, logic_type). */
  ghost predicate UniqueLogic(groups: seq<Group>)
  {
    forall i, j :: 0 <= i < |groups| && 0 <= j < |groups| && i != j ==> groups[i].logic != groups[j].logic
  }

  /** At most one Dependency per (group, depends_on). */
  ghost predicate UniqueDeps(deps: seq<nat>)
  {
    forall i, j :: 0 <= i < |deps| && 0 <= j < |deps| && i != j ==> deps[i] != deps[j]
  }

  ghost predicate WellFormedGroups(groups: seq<Group>)
  {
    UniqueLogic(groups) && forall k :: 0 <= k < |groups| ==> UniqueDeps(groups[k].deps)
  }

  /** Creating a DependencyGroup: refused when the task already has a group
      with this logic type; a new group starts empty. */
  function AddGroup(t: Task, logic: Logic): (r: Result<Task>)
    ensures r.Failure? <==> exists k :: 0 <= k < |t.groups| && t.groups[k].logic == logic
    ensures r.Failure? ==> r.error == DuplicateGroup
    ensures r.Success? ==> r.value == t.(groups := t.groups + [Group(logic, [])])
    ensures r.Success? && WellFormedGroups(t.groups) ==> WellFormedGroups(r.value.groups)
  {
    if exists k :: 0 <= k < |t.groups| && t.groups[k].logic == logic then Failure(DuplicateGroup)
    else Success(t.(groups := t.groups + [Group(logic, [])]))
  }

  /** Creating a Dependency in group `k`: refused when the group already
      references `dependsOn`. */
  function AddDependency(t: Task, k: nat, dependsOn: nat): (r: Result<Task>)
    requires k < |t.groups|
    ensures r.Failure? <==> dependsOn in t.groups[k].deps
    ensures r.Failure? ==> r.error == DuplicateDependency
    ensures r.Success? ==>
      r.value == t.(groups := t.groups[k := Group(t.groups[k].logic, t.groups[k].deps + [dependsOn])])
    ensures r.Success? && WellFormedGroups(t.groups) ==> WellFormedGroups(r.value.groups)
  {
    if dependsOn in t.groups[k].deps then Failure(DuplicateDependency)
    else Success(t.(groups := t.groups[k := Group(t.groups[k].logic, t.groups[k].deps + [dependsOn])]))
  }
}
