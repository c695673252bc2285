/** The task table and the save cascade of api/models.py and api/signals.py:
    `Task.save`, `Task.update_dependent_tasks`, the post-save handlers
    `handle_task_updates` (dependent advancement, parent rollup) and
    `update_subtask_privacy`. The table is a sequence of rows updated in
    place; a save runs its post-save handlers in registration order. */
module Store {
  import opened Domain
  import opened Readiness

  /** `rank` orders the parent chain: a parent ranks strictly below its
      subtasks, so the chain is acyclic and the upward cascade ends. */
  ghost predicate Ranked(rows: seq<Task>, rank: map<nat, nat>)
  {
    forall k :: 0 <= k < |rows| ==>
      && rows[k].id in rank
      && (rows[k].parent.Some? ==>
            rows[k].parent.value in rank && rank[rows[k].parent.value] < rank[rows[k].id])
  }

  /** A row with the fields the cascade writes blanked out. */
  function Shape(t: Task): Task
  {
    t.(isCompleted := false, status := NotStarted, isPrivate := false)
  }

  /** Row by row, nothing but completion, status and privacy differs. */
  ghost predicate SameShape(a: seq<Task>, b: seq<Task>)
  {
    |a| == |b| && forall k :: 0 <= k < |a| ==> Shape(a[k]) == Shape(b[k])
  }

  /** Row by row, the completion flags agree. */
  ghost predicate SameFlags(a: seq<Task>, b: seq<Task>)
  {
    |a| == |b| && forall k :: 0 <= k < |a| ==> a[k].isCompleted == b[k].isCompleted
  }

  /** Completion flags differ only on rows ranked below `bound`. */
  ghost predicate FlagsChangedBelow(a: seq<Task>, b: seq<Task>, rank: map<nat, nat>, bound: nat)
  {
    |a| == |b| &&
    forall k :: 0 <= k < |a| && a[k].isCompleted != b[k].isCompleted ==>
      a[k].id in rank && rank[a[k].id] < bound
  }

  lemma SameShapeKeeps(a: seq<Task>, b: seq<Task>, rank: map<nat, nat>)
    requires SameShape(a, b)
    ensures Ids(a) == Ids(b)
    ensures DistinctIds(a) ==> DistinctIds(b)
    ensures ParentsExist(a) ==> ParentsExist(b)
    ensures Ranked(a, rank) ==> Ranked(b, rank)
  {
    assert forall k :: 0 <= k < |a| ==> a[k].id == Shape(a[k]).id == b[k].id;
    assert forall k :: 0 <= k < |a| ==> a[k].parent == Shape(a[k]).parent == b[k].parent;
    forall x | x in Ids(a) ensures x in Ids(b) {
      var t :| t in a && t.id == x;
      var k :| 0 <= k < |a| && a[k] == t;
      assert b[k] in b;
    }
    forall x | x in Ids(b) ensures x in Ids(a) {
      var t :| t in b && t.id == x;
      var k :| 0 <= k < |b| && b[k] == t;
      assert a[k] in a;
    }
  }


  /** The rows after persisting `t`: its stored row is replaced, or it is
      appended when new. */
  function Written(rows: seq<Task>, t: Task): (r: seq<Task>)
    ensures |r| == if t.id in Ids(rows) then |rows| else |rows| + 1
    ensures forall k :: 0 <= k < |rows| ==> r[k] == if rows[k].id == t.id then t else rows[k]
    ensures t.id !in Ids(rows) ==> r[|rows|] == t
  {
    if t.id in Ids(rows) then Replace(rows, t) else rows + [t]
  }

  /** Every row with the id of `t` replaced by `t`. */
  function Replace(rows: seq<Task>, t: Task): (r: seq<Task>)
    ensures |r| == |rows|
    ensures forall k :: 0 <= k < |rows| ==> r[k] == if rows[k].id == t.id then t else rows[k]
  {
    if rows == [] then []
    else
      var last := rows[|rows| - 1];
      Replace(rows[..|rows| - 1], t) + [if last.id == t.id then t else last]
  }

  lemma WrittenIds(rows: seq<Task>, t: Task)
    ensures Ids(Written(rows, t)) == Ids(rows) + {t.id}
  {
    var w := Written(rows, t);
    if t.id in Ids(rows) {
      forall x | x in Ids(w) ensures x in Ids(rows) + {t.id} {
        var k := IndexOf(w, x);
        assert rows[k] in rows;
      }
      forall x | x in Ids(rows) ensures x in Ids(w) {
        var k := IndexOf(rows, x);
        assert w[k] in w;
      }
    } else {
      assert w == rows + [t];
    }
  }

  lemma WrittenDistinct(rows: seq<Task>, t: Task)
    requires DistinctIds(rows)
    ensures DistinctIds(Written(rows, t))
  {
    var w := Written(rows, t);
    if t.id in Ids(rows) {
      assert forall i :: 0 <= i < |w| ==> w[i].id == rows[i].id;
    } else {
      forall i | 0 <= i < |rows| ensures rows[i].id != t.id {
        assert rows[i] in rows;
      }
    }
  }

  lemma WrittenParents(rows: seq<Task>, t: Task)
    requires ParentsExist(rows) && (t.parent.Some? ==> t.parent.value in Ids(rows))
    ensures ParentsExist(Written(rows, t))
  {
    WrittenIds(rows, t);
  }

  /** The subtasks of `p`, in storage order (`parent.subtasks`). */
  function Subtasks(rows: seq<Task>, p: nat): (r: seq<Task>)
    ensures forall s :: s in r <==> s in rows && s.parent == Some(p)
  {
    if rows == [] then []
    else
      var last := rows[|rows| - 1];
      assert forall s :: s in rows <==> s in rows[..|rows| - 1] || s == last;
      Subtasks(rows[..|rows| - 1], p) + (if last.parent == Some(p) then [last] else [])
  }

  /** `subtasks.filter(is_completed=True).count()`. */
  function CountCompleted(subs: seq<Task>): (r: nat)
    ensures r <= |subs|
    ensures r == |subs| <==> forall s :: s in subs ==> s.isCompleted
  {
    if subs == [] then 0
    else
      var rest := CountCompleted(subs[1..]);
      assert forall s :: s in subs <==> s == subs[0] || s in subs[1..];
      (if subs[0].isCompleted then 1 else 0) + rest
  }

  /** `subtasks.filter(status='IN_PROGRESS').exists()`. */
  function AnyInProgress(subs: seq<Task>): (r: bool)
    ensures r <==> exists s :: s in subs && s.status == InProgress
  {
    if subs == [] then false
    else
      assert forall s :: s in subs <==> s == subs[0] || s in subs[1..];
      subs[0].status == InProgress || AnyInProgress(subs[1..])
  }

  /** The parent as `handle_task_updates` rewrites it from its subtasks. */
  function Rollup(parent: Task, subs: seq<Task>): (r: Task)
    ensures r.isCompleted <==> forall s :: s in subs ==> s.isCompleted
    ensures r.status == Completed <==> r.isCompleted
    ensures r.status == InProgress <==> !r.isCompleted && exists s :: s in subs && s.status == InProgress
    ensures r.status == NotStarted <==> !r.isCompleted && forall s :: s in subs ==> s.status != InProgress
    ensures r.(isCompleted := parent.isCompleted, status := parent.status) == parent
  {
    var allCompleted := CountCompleted(subs) == |subs|;
    var status := if allCompleted then Completed else if AnyInProgress(subs) then InProgress else NotStarted;
    parent.(isCompleted := allCompleted, status := status)
  }

  /** A dependent the completion of `x` may advance: it references `x`, it
      is still not started, and its groups are satisfied. */
  predicate Qualifies(rows: seq<Task>, x: nat, t: Task)
  {
    x in FlatDeps(t.groups) && t.status == NotStarted && CanStart(rows, t.groups)
  }

  /** No dependent of `x` that qualifies has a parent in another project. */
  ghost predicate NoneRefused(rows0: seq<Task>, x: nat)
    requires ParentsExist(rows0)
  {
    forall k :: 0 <= k < |rows0| && Qualifies(rows0, x, rows0[k]) ==> !Mismatch(rows0, rows0[k])
  }

  /** Exactly the dependents of `x` that qualify in `rows0` are now in
      progress; every other status is unchanged. */
  ghost predicate Advanceable(rows0: seq<Task>, rows: seq<Task>, x: nat)
  {
    |rows| == |rows0| &&
    forall k :: 0 <= k < |rows| ==>
      rows[k].status == if Qualifies(rows0, x, rows0[k]) then InProgress else rows0[k].status
  }

  /** Privacy changed only on qualifying dependents that have a parent,
      whose privacy `Task.save` copies. */
  ghost predicate PrivacyOnlyInherited(rows0: seq<Task>, rows: seq<Task>, x: nat)
  {
    |rows| == |rows0| &&
    forall k :: 0 <= k < |rows| && rows[k].isPrivate != rows0[k].isPrivate ==>
      Qualifies(rows0, x, rows0[k]) && rows0[k].parent.Some?
  }

  class TaskStore {
    var rows: seq<Task>

    ghost predicate Valid()
      reads this
    {
      DistinctIds(rows) && ParentsExist(rows)
    }

    constructor(rows0: seq<Task>)
      requires DistinctIds(rows0) && ParentsExist(rows0)
      ensures Valid() && rows == rows0
    {
      rows := rows0;
    }

    /** `Task.save` itself: refuse a parent in another project, inherit the
        parent's privacy, and persist the row. */
    method Persist(t: Task) returns (r: Result<Task>)
      requires Valid()
      requires t.parent.Some? ==> t.parent.value in Ids(rows)
      modifies this
      ensures Valid()
      ensures r == PrepareSave(t, ParentOf(old(rows), t))
      ensures r.Failure? ==> rows == old(rows)
      ensures r.Success? ==> rows == Written(old(rows), r.value) && Ids(rows) == Ids(old(rows)) + {t.id}
    {
      var parent := ParentOf(rows, t);
      r := PrepareSave(t, parent);
      if r.Success? {
        WrittenIds(rows, r.value);
        WrittenDistinct(rows, r.value);
        WrittenParents(rows, r.value);
        rows := Written(rows, r.value);
      }
    }

    /** `Task.update_dependent_tasks` for the task with id `x`: every stored
        task that references `x`, is not started and can start moves to
        IN_PROGRESS and is saved (inheriting its parent's privacy); a save
        refused for a parent in another project stops the loop. */
    method UpdateDependentTasks(x: nat) returns (r: Outcome)
      requires Valid()
      modifies this
      ensures Valid()
      ensures SameShape(old(rows), rows) && SameFlags(old(rows), rows)
      ensures r.Fail? ==> r.error == SubtaskProjectMismatch
      ensures r.Pass? <==> NoneRefused(old(rows), x)
      ensures r.Pass? ==> Advanceable(old(rows), rows, x)
      ensures OnlyAdvanced(old(rows), rows) && PrivacyOnlyInherited(old(rows), rows, x)
    {
      ghost var rows0 := rows;
      ghost var qs, ms := Decisions(rows0, x);
      var cur := rows;
      var k := 0;
      while k < |cur|
        invariant Advanced(rows0, cur, qs, ms, k)
        decreases |cur| - k
      {
        var t := cur[k];
        AdvanceFacts(rows0, cur, qs, ms, k);
        if x in FlatDeps(t.groups) && t.status == NotStarted && CanStart(cur, t.groups) {
          assert qs[k];
          var saved := PrepareSave(t.(status := InProgress), ParentOf(cur, t));
          if saved.Failure? {
            assert qs[k] && ms[k];
            AdvancedValid(rows0, cur, qs, ms, k);
            AdvancedRefused(rows0, cur, x, qs, ms, k);
            rows := cur;
            return Fail(saved.error);
          }
          AdvanceStep(rows0, cur, qs, ms, k, saved.value);
          cur := cur[k := saved.value];
        } else {
          assert !qs[k];
          SkipStep(rows0, cur, qs, ms, k);
        }
        k := k + 1;
      }
      AdvancedValid(rows0, cur, qs, ms, k);
      AdvancedDone(rows0, cur, x, qs, ms);
      rows := cur;
      r := Pass;
    }

    /** The first step of `handle_task_updates`: only a completed task
        advances its dependents; saving an incomplete one changes nothing. */
    method AdvanceDependents(t: Task) returns (r: Outcome)
      requires Valid()
      modifies this
      ensures Valid()
      ensures SameShape(old(rows), rows) && SameFlags(old(rows), rows)
      ensures OnlyAdvanced(old(rows), rows)
      ensures !t.isCompleted ==> r == Pass && rows == old(rows)
      ensures t.isCompleted ==> (r.Pass? <==> NoneRefused(old(rows), t.id))
      ensures t.isCompleted && r.Pass? ==> Advanceable(old(rows), rows, t.id)
      ensures r.Fail? ==> r.error == SubtaskProjectMismatch
    {
      r := Pass;
      if t.isCompleted {
        r := UpdateDependentTasks(t.id);
      }
    }

    /** `update_subtask_privacy`: the bulk update sets `is_private` of the
        direct subtasks of `t` to its value and fires no further saves. */
    method UpdateSubtaskPrivacy(t: Task)
      requires Valid()
      modifies this
      ensures Valid()
      ensures SameShape(old(rows), rows) && SameFlags(old(rows), rows) && SameStatus(old(rows), rows)
      ensures forall k :: 0 <= k < |rows| ==>
        rows[k] == if old(rows)[k].parent == Some(t.id) then old(rows)[k].(isPrivate := t.isPrivate) else old(rows)[k]
    {
      ghost var rows0 := rows;
      var k := 0;
      while k < |rows|
        invariant 0 <= k <= |rows| == |rows0|
        invariant forall j :: 0 <= j < |rows| ==>
          rows[j] == if j < k && rows0[j].parent == Some(t.id) then rows0[j].(isPrivate := t.isPrivate) else rows0[j]
      {
        if rows[k].parent == Some(t.id) {
          rows := rows[k := rows[k].(isPrivate := t.isPrivate)];
        }
        k := k + 1;
      }
      assert SameShape(rows0, rows);
      SameShapeKeeps(rows0, rows, map[]);
    }

    /** A save of `t` with its post-save handlers: persist it; when it is
        completed, advance its dependents; when it has a parent, recompute
        the parent from its subtasks and save the parent the same way; then
        push its privacy down to its direct subtasks. An error stops the
        cascade where it is raised. The ghost `rank` witnesses an acyclic
        parent chain. */
    method Save(t: Task, ghost rank: map<nat, nat>) returns (r: Outcome)
      requires Valid()
      requires t.parent.Some? ==> t.parent.value in Ids(rows)
      requires Ranked(Written(rows, t), rank)
      modifies this
      decreases rank[t.id], 2
      ensures Valid()
      ensures r.Fail? ==> r.error == SubtaskProjectMismatch
      ensures Mismatch(old(rows), t) ==> r.Fail? && rows == old(rows)
      ensures !Mismatch(old(rows), t) ==>
        && Ranked(rows, rank)
        && ChangedBelow(Written(old(rows), t), rows, rank, rank[t.id], t.isCompleted)
        && FlagOf(rows, t.id, t.isCompleted)
      ensures r.Pass? && t.parent.Some? ==> RolledUp(rows, t.parent.value)
    {
      WrittenRank(rows, t, rank);
      ghost var s0 := rows;
      var saved := Persist(t);
      if saved.Failure? {
        return Fail(saved.error);
      }
      var t' := saved.value;
      PersistStep(s0, t, t', rank);
      WrittenStored(s0, t');
      ghost var w := rows;
      r := PostSave(t', rank);
      Carry(Written(s0, t), w, rows, rank, rank[t.id], t.id, t.isCompleted, t.isCompleted);
    }

    /** The post-save handlers, in registration order: `handle_task_updates`
        (advance the dependents of a completed task, then roll up its
        parent) and `update_subtask_privacy`. `t` is the row just stored. */
    method PostSave(t: Task, ghost rank: map<nat, nat>) returns (r: Outcome)
      requires Valid() && Ranked(rows, rank)
      requires t.id in rank && StoredLike(rows, t)
      requires t.parent.Some? ==>
        t.parent.value in Ids(rows) && t.parent.value in rank && rank[t.parent.value] < rank[t.id]
      modifies this
      decreases rank[t.id], 1
      ensures Valid() && Ranked(rows, rank)
      ensures r.Fail? ==> r.error == SubtaskProjectMismatch
      ensures ChangedBelow(old(rows), rows, rank, rank[t.id], t.isCompleted) && FlagOf(rows, t.id, t.isCompleted)
      ensures r.Pass? && t.parent.Some? ==> RolledUp(rows, t.parent.value)
    {
      ghost var w := rows;
      r := AdvanceDependents(t);
      AdvanceChange(w, rows, rank, rank[t.id], t);
      if r.Fail? {
        return;
      }
      ghost var s1 := rows;
      if t.parent.Some? {
        r := SaveParent(t, rank);
        if r.Fail? {
          Carry(w, s1, rows, rank, rank[t.id], t.id, t.isCompleted, t.isCompleted);
          return;
        }
      }
      ghost var s2 := rows;
      UpdateSubtaskPrivacy(t);
      SameShapeKeeps(s2, rows, rank);
      SaveFinish(w, s1, s2, rows, rank, rank[t.id], t);
    }

    /** The parent rollup of `handle_task_updates`: recompute the stored
        parent of `t` from its subtasks and save it. Only rows ranked
        below `t` change their completion flag; statuses change below `t`
        or, when `t` is completed, by advancing not-started dependents. */
    method SaveParent(t: Task, ghost rank: map<nat, nat>) returns (r: Outcome)
      requires Valid() && Ranked(rows, rank)
      requires t.parent.Some? && t.parent.value in Ids(rows) && StoredLike(rows, t)
      requires t.id in rank && t.parent.value in rank && rank[t.parent.value] < rank[t.id]
      modifies this
      decreases rank[t.id], 0
      ensures Valid() && Ranked(rows, rank)
      ensures r.Fail? ==> r.error == SubtaskProjectMismatch
      ensures ChangedBelow(old(rows), rows, rank, rank[t.id], t.isCompleted)
      ensures r.Pass? ==> RolledUp(rows, t.parent.value)
      ensures r.Pass? ==>
        StoredAs(rows, t.parent.value,
                 Rollup(Find(old(rows), t.parent.value).value, Subtasks(old(rows), t.parent.value)))
    {
      var pid := t.parent.value;
      var p := Find(rows, pid).value;
      var subs := Subtasks(rows, pid);
      var p' := Rollup(p, subs);
      RollupNeedsSubtask(rows, t, p, p');
      ParentStep(rows, p, p', rank, rank[t.id], t.isCompleted);
      ghost var s1 := rows;
      r := Save(p', rank);
      ParentCallResult(s1, p', rows, rank, rank[t.id], t.isCompleted);
      if r.Pass? {
        ParentRollupResult(s1, rows, p, subs, p', rank);
      }
    }
  }

  /** The row with id `id`, if stored, has completion flag `v`. */
  ghost predicate FlagOf(rows: seq<Task>, id: nat, v: bool)
  {
    forall k :: 0 <= k < |rows| && rows[k].id == id ==> rows[k].isCompleted == v
  }

  /** `t` is stored, and every row with its id has its shape and flag. */
  ghost predicate StoredLike(rows: seq<Task>, t: Task)
  {
    && t.id in Ids(rows)
    && forall k :: 0 <= k < |rows| && rows[k].id == t.id ==>
         Shape(rows[k]) == Shape(t) && rows[k].isCompleted == t.isCompleted
  }

  /** The row with id `id`, if stored, has the completion and status of `x`. */
  ghost predicate StoredAs(rows: seq<Task>, id: nat, x: Task)
  {
    forall k :: 0 <= k < |rows| && rows[k].id == id ==>
      rows[k].isCompleted == x.isCompleted && rows[k].status == x.status
  }

  /** The stored parent `pid` agrees with its stored subtasks: completed
      exactly when all of them are, and then COMPLETED; otherwise
      IN_PROGRESS exactly when one of them is, and NOT_STARTED when none is. */
  ghost predicate RolledUp(rows: seq<Task>, pid: nat)
  {
    forall k :: 0 <= k < |rows| && rows[k].id == pid ==>
      && (rows[k].isCompleted <==> forall j :: 0 <= j < |rows| && rows[j].parent == Some(pid) ==> rows[j].isCompleted)
      && (rows[k].status == Completed <==> rows[k].isCompleted)
      && (rows[k].status == InProgress <==>
            !rows[k].isCompleted && exists j :: 0 <= j < |rows| && rows[j].parent == Some(pid) && rows[j].status == InProgress)
      && (rows[k].status == NotStarted <==>
            !rows[k].isCompleted && forall j :: 0 <= j < |rows| && rows[j].parent == Some(pid) ==> rows[j].status != InProgress)
  }

  /** Row by row, the statuses agree. */
  ghost predicate SameStatus(a: seq<Task>, b: seq<Task>)
  {
    |a| == |b| && forall k :: 0 <= k < |a| ==> a[k].status == b[k].status
  }

  /** Statuses changed only from NOT_STARTED to IN_PROGRESS. */
  ghost predicate OnlyAdvanced(a: seq<Task>, b: seq<Task>)
  {
    |a| == |b| &&
    forall k :: 0 <= k < |a| && a[k].status != b[k].status ==>
      a[k].status == NotStarted && b[k].status == InProgress
  }

  /** Statuses differ only on rows ranked below `bound`, or, when `adv`,
      where a not-started row moved to in progress. */
  ghost predicate StatusChangedBelow(a: seq<Task>, b: seq<Task>, rank: map<nat, nat>, bound: nat, adv: bool)
  {
    |a| == |b| &&
    forall k :: 0 <= k < |a| && a[k].status != b[k].status ==>
      || (a[k].id in rank && rank[a[k].id] < bound)
      || (adv && a[k].status == NotStarted && b[k].status == InProgress)
  }

  /** `b` is `a` with only completion, statuses and privacy changed:
      completion only on rows ranked below `bound`, statuses as
      `StatusChangedBelow` allows. */
  ghost predicate ChangedBelow(a: seq<Task>, b: seq<Task>, rank: map<nat, nat>, bound: nat, adv: bool)
  {
    SameShape(a, b) && FlagsChangedBelow(a, b, rank, bound) && StatusChangedBelow(a, b, rank, bound, adv)
  }

  lemma ChangedTrans(a: seq<Task>, b: seq<Task>, c: seq<Task>, rank: map<nat, nat>, n: nat, m: nat, adv: bool)
    requires ChangedBelow(a, b, rank, n, adv) && ChangedBelow(b, c, rank, m, adv) && m <= n
    ensures ChangedBelow(a, c, rank, n, adv)
  {
    forall k | 0 <= k < |a| ensures a[k].id == b[k].id {
      assert Shape(a[k]).id == Shape(b[k]).id;
    }
  }

  /** Carrying the cascade's invariant across one more step. */
  lemma Carry(w0: seq<Task>, a: seq<Task>, b: seq<Task>, rank: map<nat, nat>, n: nat, id: nat, v: bool, adv: bool)
    requires ChangedBelow(w0, a, rank, n, adv) && FlagOf(a, id, v) && id in rank && rank[id] >= n
    requires ChangedBelow(a, b, rank, n, adv) || (SameShape(a, b) && SameFlags(a, b) && SameStatus(a, b))
    ensures ChangedBelow(w0, b, rank, n, adv) && FlagOf(b, id, v)
  {
    assert ChangedBelow(a, b, rank, n, adv);
    ChangedTrans(w0, a, b, rank, n, n, adv);
    forall k | 0 <= k < |b| && b[k].id == id ensures b[k].isCompleted == v {
      assert Shape(a[k]).id == Shape(b[k]).id;
    }
  }

  /** Advancing dependents changes only statuses, and only when the saved
      task is completed; the saved row keeps its shape and flag. */
  lemma AdvanceChange(w: seq<Task>, s1: seq<Task>, rank: map<nat, nat>, n: nat, t: Task)
    requires SameShape(w, s1) && SameFlags(w, s1) && OnlyAdvanced(w, s1)
    requires !t.isCompleted ==> s1 == w
    requires StoredLike(w, t)
    ensures ChangedBelow(w, s1, rank, n, t.isCompleted) && StoredLike(s1, t)
    ensures Ids(s1) == Ids(w) && (Ranked(w, rank) ==> Ranked(s1, rank))
    ensures DistinctIds(w) ==> DistinctIds(s1)
  {
    SameShapeKeeps(w, s1, rank);
  }

  lemma PersistStep(s0: seq<Task>, t: Task, t': Task, rank: map<nat, nat>)
    requires DistinctIds(s0) && Ranked(Written(s0, t), rank) && t.id in rank
    requires t'.(isPrivate := t.isPrivate) == t
    ensures Ranked(Written(s0, t'), rank)
    ensures ChangedBelow(Written(s0, t), Written(s0, t'), rank, rank[t.id], t.isCompleted)
  {
    var w, w' := Written(s0, t), Written(s0, t');
    assert t'.id == t.id && t'.parent == t.parent && t'.isCompleted == t.isCompleted;
    assert t.id in Ids(s0) <==> t'.id in Ids(s0);
    forall k | 0 <= k < |w|
      ensures w'[k] == w[k] || (w[k] == t && w'[k] == t')
    {
      if k == |s0| {
        assert w[k] == t && w'[k] == t';
      }
    }
    forall k | 0 <= k < |w'|
      ensures Shape(w[k]) == Shape(w'[k]) && w[k].isCompleted == w'[k].isCompleted && w[k].status == w'[k].status
      ensures w'[k].id == w[k].id && w'[k].parent == w[k].parent
    {
      assert Shape(t) == Shape(t');
    }
  }

  /** A row just written is stored as written. */
  lemma WrittenStored(rows: seq<Task>, t: Task)
    ensures StoredLike(Written(rows, t), t)
  {
    WrittenIds(rows, t);
    var w := Written(rows, t);
    if t.id !in Ids(rows) {
      assert w[|rows|] == t;
    }
  }

  /** The parent comes out of the rollup completed only if `t`, one of its
      stored subtasks, is completed. */
  lemma RollupNeedsSubtask(s1: seq<Task>, t: Task, p: Task, p': Task)
    requires StoredLike(s1, t) && t.parent == Some(p.id)
    requires p' == Rollup(p, Subtasks(s1, p.id))
    ensures p'.isCompleted ==> t.isCompleted
  {
    var j := IndexOf(s1, t.id);
    assert Shape(s1[j]) == Shape(t);
    assert s1[j] in Subtasks(s1, p.id);
  }

  /** Saving the recomputed parent is a legal call that changes nothing but
      the parent's row, ranked below `n`. */
  lemma ParentStep(s1: seq<Task>, p: Task, p': Task, rank: map<nat, nat>, n: nat, adv: bool)
    requires DistinctIds(s1) && ParentsExist(s1) && Ranked(s1, rank)
    requires p.id in Ids(s1) && Find(s1, p.id) == Some(p)
    requires p'.(isCompleted := p.isCompleted, status := p.status) == p
    requires p.id in rank && rank[p.id] < n
    ensures p'.id == p.id
    ensures p'.parent.Some? ==> p'.parent.value in Ids(s1)
    ensures Ranked(Written(s1, p'), rank)
    ensures ChangedBelow(s1, Written(s1, p'), rank, n, adv)
  {
    assert Shape(p') == Shape(p);
    var i := IndexOf(s1, p.id);
    FindAt(s1, i);
    assert s1[i] == p;
    forall k | 0 <= k < |s1| && s1[k].id == p.id ensures k == i {
      FindAt(s1, k);
    }
    SameShapeKeeps(s1, Written(s1, p'), rank);
  }

  lemma ParentCallResult(s1: seq<Task>, p': Task, s2: seq<Task>, rank: map<nat, nat>, n: nat, adv: bool)
    requires p'.parent.Some? ==> p'.parent.value in Ids(s1)
    requires p'.id in rank && rank[p'.id] <= n
    requires p'.isCompleted ==> adv
    requires ChangedBelow(s1, Written(s1, p'), rank, n, adv)
    requires Mismatch(s1, p') ==> s2 == s1
    requires !Mismatch(s1, p') ==> ChangedBelow(Written(s1, p'), s2, rank, rank[p'.id], p'.isCompleted)
    ensures ChangedBelow(s1, s2, rank, n, adv)
  {
    if !Mismatch(s1, p') {
      assert StatusChangedBelow(Written(s1, p'), s2, rank, rank[p'.id], adv);
      ChangedTrans(s1, Written(s1, p'), s2, rank, n, rank[p'.id], adv);
    }
  }

  /** Row by row, `a` and `b` have the same subtasks of `pid`, with the
      same completion, and the same statuses too when `keepStatus`. */
  ghost predicate SubtasksAgree(a: seq<Task>, b: seq<Task>, pid: nat, keepStatus: bool)
  {
    |a| == |b| &&
    forall j :: 0 <= j < |a| ==>
      && (a[j].parent == Some(pid) <==> b[j].parent == Some(pid))
      && (a[j].parent == Some(pid) ==>
            a[j].isCompleted == b[j].isCompleted && (keepStatus ==> a[j].status == b[j].status))
  }

  /** After the recomputed parent is saved, its row holds the recomputed
      completion and status: a completed parent is COMPLETED, which no
      dependent advancement touches, and an incomplete one advances no
      dependents. */
  lemma ParentRowSaved(s1: seq<Task>, s2: seq<Task>, p': Task, rank: map<nat, nat>)
    requires p'.id in Ids(s1) && p'.id in rank
    requires ChangedBelow(Written(s1, p'), s2, rank, rank[p'.id], p'.isCompleted)
    requires FlagOf(s2, p'.id, p'.isCompleted)
    requires p'.status == Completed <==> p'.isCompleted
    ensures StoredAs(s2, p'.id, p')
  {
    var w := Written(s1, p');
    forall k | 0 <= k < |s2| && s2[k].id == p'.id ensures s2[k].status == p'.status {
      assert Shape(w[k]) == Shape(s2[k]);
      assert w[k] == p';
    }
  }

  /** The subtasks rank above the parent, so the parent's own save changed
      neither their flags nor, unless the parent completed, their statuses. */
  lemma SubtasksKept(s1: seq<Task>, s2: seq<Task>, p': Task, rank: map<nat, nat>)
    requires Ranked(s1, rank) && p'.id in Ids(s1) && p'.id in rank
    requires SameShape(s1, Written(s1, p'))
    requires ChangedBelow(Written(s1, p'), s2, rank, rank[p'.id], p'.isCompleted)
    ensures SubtasksAgree(s1, s2, p'.id, !p'.isCompleted)
  {
    var w := Written(s1, p');
    forall j | 0 <= j < |s1|
      ensures s1[j].parent == s2[j].parent
      ensures s1[j].parent == Some(p'.id) ==>
        s1[j].isCompleted == s2[j].isCompleted && (!p'.isCompleted ==> s1[j].status == s2[j].status)
    {
      assert Shape(s1[j]) == Shape(w[j]) == Shape(s2[j]);
      if s1[j].parent == Some(p'.id) {
        assert s1[j].id != p'.id;
        assert w[j] == s1[j];
      }
    }
  }

  lemma AgreeDone(s1: seq<Task>, s2: seq<Task>, pid: nat, keepStatus: bool)
    requires SubtasksAgree(s1, s2, pid, keepStatus)
    ensures (forall j :: 0 <= j < |s2| && s2[j].parent == Some(pid) ==> s2[j].isCompleted)
            <==> (forall s :: s in Subtasks(s1, pid) ==> s.isCompleted)
  {
    var subs := Subtasks(s1, pid);
    if forall j :: 0 <= j < |s2| && s2[j].parent == Some(pid) ==> s2[j].isCompleted {
      forall s | s in subs ensures s.isCompleted {
        var j :| 0 <= j < |s1| && s1[j] == s;
        assert s2[j].parent == Some(pid);
      }
    }
    if forall s :: s in subs ==> s.isCompleted {
      forall j | 0 <= j < |s2| && s2[j].parent == Some(pid) ensures s2[j].isCompleted {
        assert s1[j] in subs;
      }
    }
  }

  lemma AgreeInProgress(s1: seq<Task>, s2: seq<Task>, pid: nat)
    requires SubtasksAgree(s1, s2, pid, true)
    ensures (exists j :: 0 <= j < |s2| && s2[j].parent == Some(pid) && s2[j].status == InProgress)
            <==> (exists s :: s in Subtasks(s1, pid) && s.status == InProgress)
  {
    var subs := Subtasks(s1, pid);
    if exists j :: 0 <= j < |s2| && s2[j].parent == Some(pid) && s2[j].status == InProgress {
      var j :| 0 <= j < |s2| && s2[j].parent == Some(pid) && s2[j].status == InProgress;
      assert s1[j] in subs && s1[j].status == InProgress;
    }
    if exists s :: s in subs && s.status == InProgress {
      var s :| s in subs && s.status == InProgress;
      var j :| 0 <= j < |s1| && s1[j] == s;
      assert s2[j].parent == Some(pid) && s2[j].status == InProgress;
    }
  }

  /** A row holding the rollup of the subtasks in `s1` satisfies the rollup
      rule over the subtasks in `s2` when they agree with those in `s1`. */
  lemma AgreedRollup(s1: seq<Task>, s2: seq<Task>, pid: nat, p: Task, p': Task)
    requires p' == Rollup(p, Subtasks(s1, pid))
    requires StoredAs(s2, pid, p') && SubtasksAgree(s1, s2, pid, !p'.isCompleted)
    ensures RolledUp(s2, pid)
  {
    AgreeDone(s1, s2, pid, !p'.isCompleted);
    if !p'.isCompleted {
      AgreeInProgress(s1, s2, pid);
    }
  }

  lemma ParentRollupResult(s1: seq<Task>, s2: seq<Task>, p: Task, subs: seq<Task>, p': Task, rank: map<nat, nat>)
    requires Ranked(s1, rank)
    requires p.id in Ids(s1) && p.id in rank
    requires subs == Subtasks(s1, p.id) && p' == Rollup(p, subs)
    requires SameShape(s1, Written(s1, p'))
    requires ChangedBelow(Written(s1, p'), s2, rank, rank[p.id], p'.isCompleted)
    requires FlagOf(s2, p.id, p'.isCompleted)
    ensures StoredAs(s2, p.id, p') && RolledUp(s2, p.id)
  {
    assert p'.id == p.id by { assert Shape(p') == Shape(p); }
    ParentRowSaved(s1, s2, p', rank);
    SubtasksKept(s1, s2, p', rank);
    AgreedRollup(s1, s2, p.id, p, p');
  }

  lemma RolledUpKept(a: seq<Task>, b: seq<Task>, pid: nat)
    requires SameShape(a, b) && SameFlags(a, b) && SameStatus(a, b) && RolledUp(a, pid)
    ensures RolledUp(b, pid)
  {
    forall k | 0 <= k < |a| ensures a[k].id == b[k].id && a[k].parent == b[k].parent {
      assert Shape(a[k]) == Shape(b[k]);
    }
  }

  /** Composing the stages of a save: the dependents, the parent rollup and
      the privacy push-down. */
  lemma SaveFinish(w: seq<Task>, s1: seq<Task>, s2: seq<Task>, s3: seq<Task>,
                   rank: map<nat, nat>, n: nat, t: Task)
    requires StoredLike(s1, t) && t.id in rank && rank[t.id] >= n
    requires ChangedBelow(w, s1, rank, n, t.isCompleted)
    requires ChangedBelow(s1, s2, rank, n, t.isCompleted)
    requires SameShape(s2, s3) && SameFlags(s2, s3) && SameStatus(s2, s3)
    requires t.parent.Some? ==> RolledUp(s2, t.parent.value)
    ensures ChangedBelow(w, s3, rank, n, t.isCompleted) && FlagOf(s3, t.id, t.isCompleted)
    ensures t.parent.Some? ==> RolledUp(s3, t.parent.value)
  {
    Carry(w, s1, s2, rank, n, t.id, t.isCompleted, t.isCompleted);
    Carry(w, s2, s3, rank, n, t.id, t.isCompleted, t.isCompleted);
    if t.parent.Some? {
      RolledUpKept(s2, s3, t.parent.value);
    }
  }

  lemma SameFlagsSameCompletion(a: seq<Task>, b: seq<Task>)
    requires SameShape(a, b) && SameFlags(a, b) && DistinctIds(a)
    ensures SameCompletion(a, b)
  {
    SameShapeKeeps(a, b, map[]);
    forall id ensures IsDone(a, id) == IsDone(b, id) {
      if id in Ids(a) {
        var k := IndexOf(a, id);
        FindAt(a, k);
        assert b[k].id == Shape(b[k]).id == Shape(a[k]).id == id;
        FindAt(b, k);
      }
    }
  }

  lemma ParentProjectKept(rows0: seq<Task>, rows: seq<Task>, t: Task)
    requires SameShape(rows0, rows) && DistinctIds(rows0)
    requires t.parent.Some? ==> t.parent.value in Ids(rows0)
    ensures Ids(rows0) == Ids(rows)
    ensures t.parent.Some? ==> Find(rows, t.parent.value).value.project == Find(rows0, t.parent.value).value.project
  {
    SameShapeKeeps(rows0, rows, map[]);
    if t.parent.Some? {
      var k := IndexOf(rows0, t.parent.value);
      FindAt(rows0, k);
      assert Shape(rows[k]) == Shape(rows0[k]);
      FindAt(rows, k);
    }
  }

  /** The loop state of `UpdateDependentTasks` after the first `k` rows:
      those rows are advanced or skipped, the rest are untouched. */
  ghost predicate Advanced(rows0: seq<Task>, rows: seq<Task>, qs: seq<bool>, ms: seq<bool>, k: nat)
  {
    && DistinctIds(rows0) && ParentsExist(rows0)
    && k <= |rows0| == |rows| == |qs| == |ms|
    && SameShape(rows0, rows) && SameFlags(rows0, rows)
    && (forall j :: k <= j < |rows| ==> rows[j] == rows0[j])
    && (forall j :: 0 <= j < k && qs[j] ==> !ms[j])
    && (forall j :: 0 <= j < k ==> rows[j].status == if qs[j] then InProgress else rows0[j].status)
    && (forall j :: 0 <= j < |rows| && rows[j].isPrivate != rows0[j].isPrivate ==> qs[j] && rows0[j].parent.Some?)
  }

  /** Which rows qualify, and which of those a save would refuse, decided
      on the rows as they stand before the loop. */
  lemma Decisions(rows0: seq<Task>, x: nat) returns (qs: seq<bool>, ms: seq<bool>)
    requires DistinctIds(rows0) && ParentsExist(rows0)
    ensures |qs| == |ms| == |rows0|
    ensures forall j :: 0 <= j < |rows0| ==> qs[j] == Qualifies(rows0, x, rows0[j])
    ensures forall j :: 0 <= j < |rows0| ==> ms[j] == Mismatch(rows0, rows0[j])
    ensures Advanced(rows0, rows0, qs, ms, 0)
  {
    qs := seq(|rows0|, j requires 0 <= j < |rows0| => Qualifies(rows0, x, rows0[j]));
    ms := seq(|rows0|, j requires 0 <= j < |rows0| => Mismatch(rows0, rows0[j]));
  }

  lemma AdvancedValid(rows0: seq<Task>, rows: seq<Task>, qs: seq<bool>, ms: seq<bool>, k: nat)
    requires Advanced(rows0, rows, qs, ms, k)
    ensures DistinctIds(rows) && ParentsExist(rows)
  {
    SameShapeKeeps(rows0, rows, map[]);
  }

  lemma AdvancedDone(rows0: seq<Task>, rows: seq<Task>, x: nat, qs: seq<bool>, ms: seq<bool>)
    requires Advanced(rows0, rows, qs, ms, |rows|)
    requires forall j :: 0 <= j < |rows0| ==> qs[j] == Qualifies(rows0, x, rows0[j])
    requires forall j :: 0 <= j < |rows0| ==> ms[j] == Mismatch(rows0, rows0[j])
    ensures NoneRefused(rows0, x) && Advanceable(rows0, rows, x)
    ensures OnlyAdvanced(rows0, rows) && PrivacyOnlyInherited(rows0, rows, x)
  {
    AdvancedOnly(rows0, rows, x, qs, ms, |rows|);
  }

  /** Whatever row the loop stops at, it has only advanced rows that
      qualified, and those were not started. */
  lemma AdvancedOnly(rows0: seq<Task>, rows: seq<Task>, x: nat, qs: seq<bool>, ms: seq<bool>, k: nat)
    requires Advanced(rows0, rows, qs, ms, k)
    requires forall j :: 0 <= j < |rows0| ==> qs[j] == Qualifies(rows0, x, rows0[j])
    ensures OnlyAdvanced(rows0, rows) && PrivacyOnlyInherited(rows0, rows, x)
  {
    forall j | 0 <= j < |rows0| && rows0[j].status != rows[j].status
      ensures rows0[j].status == NotStarted && rows[j].status == InProgress
    {
      assert j < k && qs[j];
    }
  }

  lemma AdvancedRefused(rows0: seq<Task>, rows: seq<Task>, x: nat, qs: seq<bool>, ms: seq<bool>, k: nat)
    requires Advanced(rows0, rows, qs, ms, k) && k < |rows0|
    requires forall j :: 0 <= j < |rows0| ==> qs[j] == Qualifies(rows0, x, rows0[j])
    requires forall j :: 0 <= j < |rows0| ==> ms[j] == Mismatch(rows0, rows0[j])
    requires qs[k] && ms[k]
    ensures !NoneRefused(rows0, x) && OnlyAdvanced(rows0, rows) && PrivacyOnlyInherited(rows0, rows, x)
  {
    AdvancedOnly(rows0, rows, x, qs, ms, k);
    assert Qualifies(rows0, x, rows0[k]) && Mismatch(rows0, rows0[k]);
  }

  /** What the next row sees: its stored parent and the readiness of its
      groups are as they were before the loop. */
  lemma AdvanceFacts(rows0: seq<Task>, rows: seq<Task>, qs: seq<bool>, ms: seq<bool>, k: nat)
    requires Advanced(rows0, rows, qs, ms, k) && k < |rows|
    ensures rows[k] == rows0[k]
    ensures CanStart(rows, rows[k].groups) == CanStart(rows0, rows[k].groups)
    ensures rows[k].parent.Some? ==> rows[k].parent.value in Ids(rows)
    ensures rows[k].parent.Some? ==>
      Find(rows, rows[k].parent.value).value.project == Find(rows0, rows[k].parent.value).value.project
  {
    SameFlagsSameCompletion(rows0, rows);
    CanStartReadsCompletion(rows0, rows, rows[k].groups);
    ParentProjectKept(rows0, rows, rows0[k]);
  }

  lemma AdvanceStep(rows0: seq<Task>, rows: seq<Task>, qs: seq<bool>, ms: seq<bool>, k: nat, t': Task)
    requires Advanced(rows0, rows, qs, ms, k) && k < |rows|
    requires qs[k] && !ms[k]
    requires t'.(isPrivate := rows0[k].isPrivate) == rows0[k].(status := InProgress)
    requires t'.isPrivate != rows0[k].isPrivate ==> rows0[k].parent.Some?
    ensures DistinctIds(rows[k := t']) && ParentsExist(rows[k := t'])
    ensures Advanced(rows0, rows[k := t'], qs, ms, k + 1)
  {
    var rows' := rows[k := t'];
    assert Shape(t') == Shape(rows0[k]) && t'.isCompleted == rows0[k].isCompleted;
    assert t'.status == InProgress;
    forall j | 0 <= j < |rows'|
      ensures Shape(rows'[j]) == Shape(rows0[j]) && rows'[j].isCompleted == rows0[j].isCompleted
      ensures j < k + 1 ==>
        rows'[j].status == if qs[j] then InProgress else rows0[j].status
      ensures k + 1 <= j ==> rows'[j] == rows0[j]
      ensures rows'[j].isPrivate != rows0[j].isPrivate ==> qs[j] && rows0[j].parent.Some?
    {
      if j != k {
        assert rows'[j] == rows[j];
      }
    }
    SameShapeKeeps(rows0, rows', map[]);
  }

  lemma SkipStep(rows0: seq<Task>, rows: seq<Task>, qs: seq<bool>, ms: seq<bool>, k: nat)
    requires Advanced(rows0, rows, qs, ms, k) && k < |rows|
    requires !qs[k]
    ensures Advanced(rows0, rows, qs, ms, k + 1)
  {
  }

  lemma WrittenRank(rows: seq<Task>, t: Task, rank: map<nat, nat>)
    requires Ranked(Written(rows, t), rank)
    ensures t.id in rank
    ensures t.parent.Some? ==> t.parent.value in rank && rank[t.parent.value] < rank[t.id]
  {
    var w := Written(rows, t);
    if t.id in Ids(rows) {
      var k := IndexOf(rows, t.id);
      assert w[k] == t;
    } else {
      assert w[|rows|] == t;
    }
  }

}
