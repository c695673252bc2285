/** `calculate_project_schedule` (api/scheduling.py) as an imperative
    program: the reverse adjacency map, the in-degree map, the user
    availability map and the schedule are local maps updated in place, and
    the ready tasks sit in a FIFO queue. Each method is proved against the
    functions of SchedulingSpec. */
module Scheduling {
  import opened Domain
  import opened Readiness
  import opened SchedulingSpec

  /** `graph[d]` of the defaultdict: the dependents recorded for `d`. */
  function Adj(graph: map<nat, seq<nat>>, d: nat): seq<nat>
  {
    if d in graph then graph[d] else []
  }

  /** How many times `t` is recorded among the dependents of `d`. */
  function Refs(graph: map<nat, seq<nat>>, d: nat, t: nat): nat
  {
    multiset(Adj(graph, d))[t]
  }

  /** `in_degree[t]` of the defaultdict. */
  function Degree(inDeg: map<nat, nat>, t: nat): nat
  {
    if t in inDeg then inDeg[t] else 0
  }

  /** `user_availability[u]` of the defaultdict, whose default is the project start. */
  function AvailOf(avail: map<nat, int>, u: nat, ps: int): int
  {
    if u in avail then avail[u] else ps
  }

  /** The graph build: for every task, every prerequisite reference of every
      group adds the task to the prerequisite's dependents and one to the
      task's in-degree. */
  method BuildGraph(tasks: seq<Task>) returns (graph: map<nat, seq<nat>>, inDeg: map<nat, nat>)
    requires DistinctIds(tasks)
    ensures forall d, t :: Refs(graph, d, t) == multiset(DepsOf(tasks, t))[d]
    ensures forall d, t :: t in Adj(graph, d) ==> t in Ids(tasks)
    ensures forall t :: Degree(inDeg, t) == |DepsOf(tasks, t)|
  {
    graph, inDeg := map[], map[];
    var i := 0;
    while i < |tasks|
      invariant 0 <= i <= |tasks|
      invariant Built(tasks[..i], graph, inDeg)
    {
      var task := tasks[i];
      var deps := GroupDeps(task.groups);
      ghost var graph0, inDeg0 := graph, inDeg;
      graph, inDeg := AddReferences(graph, inDeg, task.id, deps);
      assert task.id !in Ids(tasks[..i]) by {
        forall k | 0 <= k < i ensures tasks[..i][k].id != task.id { }
      }
      BuildStep(tasks[..i], task, graph0, graph, inDeg0, inDeg);
      assert tasks[..i + 1] == tasks[..i] + [task];
      i := i + 1;
    }
    assert tasks[..i] == tasks;
  }

  /** `graph` and `inDeg` hold exactly the references of `tasks`. */
  ghost predicate Built(tasks: seq<Task>, graph: map<nat, seq<nat>>, inDeg: map<nat, nat>)
  {
    && (forall d, t :: Refs(graph, d, t) == multiset(DepsOf(tasks, t))[d])
    && (forall d, t :: t in Adj(graph, d) ==> t in Ids(tasks))
    && (forall t :: Degree(inDeg, t) == |DepsOf(tasks, t)|)
  }

  /** The innermost loop: every reference `dep` of task `x` appends `x` to
      `graph[dep]` and adds one to `in_degree[x]`. */
  method AddReferences(graph0: map<nat, seq<nat>>, inDeg0: map<nat, nat>, x: nat, deps: seq<nat>)
    returns (graph: map<nat, seq<nat>>, inDeg: map<nat, nat>)
    ensures forall d, t :: (Refs(graph, d, t) ==
      Refs(graph0, d, t) + (if t == x then multiset(deps)[d] else 0))
    ensures forall d, t :: t in Adj(graph, d) ==> t in Adj(graph0, d) || t == x
    ensures forall t :: Degree(inDeg, t) == Degree(inDeg0, t) + (if t == x then |deps| else 0)
  {
    graph, inDeg := graph0, inDeg0;
    var j := 0;
    while j < |deps|
      invariant 0 <= j <= |deps|
      invariant forall d, t :: (Refs(graph, d, t) ==
        Refs(graph0, d, t) + (if t == x then multiset(deps[..j])[d] else 0))
      invariant forall d, t :: t in Adj(graph, d) ==> t in Adj(graph0, d) || t == x
      invariant forall t :: Degree(inDeg, t) == Degree(inDeg0, t) + (if t == x then j else 0)
    {
      var dep := deps[j];
      PushStep(graph0, graph, x, deps, j);
      graph := graph[dep := Adj(graph, dep) + [x]];
      inDeg := inDeg[x := Degree(inDeg, x) + 1];
      j := j + 1;
    }
    assert deps[..j] == deps;
  }

  /** The inner loop over `task.dependency_groups.all()` collecting the
      prerequisite references group by group. */
  method GroupDeps(gs: seq<Group>) returns (deps: seq<nat>)
    ensures deps == FlatDeps(gs)
  {
    deps := [];
    var g := 0;
    while g < |gs|
      invariant 0 <= g <= |gs|
      invariant deps == FlatDeps(gs[..g])
    {
      assert gs[..g + 1][..g] == gs[..g];
      deps := deps + gs[g].deps;
      g := g + 1;
    }
    assert gs[..g] == gs;
  }

  lemma PushStep(graph0: map<nat, seq<nat>>, graph: map<nat, seq<nat>>, x: nat, deps: seq<nat>, j: nat)
    requires j < |deps|
    requires forall d, t :: (Refs(graph, d, t) ==
      Refs(graph0, d, t) + (if t == x then multiset(deps[..j])[d] else 0))
    ensures var graph' := graph[deps[j] := Adj(graph, deps[j]) + [x]];
      forall d, t :: (Refs(graph', d, t) ==
        Refs(graph0, d, t) + (if t == x then multiset(deps[..j + 1])[d] else 0))
  {
    var dep := deps[j];
    assert deps[..j + 1] == deps[..j] + [dep];
    forall d, t ensures Refs(graph[dep := Adj(graph, dep) + [x]], d, t) ==
      Refs(graph0, d, t) + (if t == x then multiset(deps[..j + 1])[d] else 0)
    {
      AdjPush(graph, dep, x, d, t);
    }
  }

  lemma AdjPush(graph: map<nat, seq<nat>>, dep: nat, x: nat, d: nat, t: nat)
    ensures Refs(graph[dep := Adj(graph, dep) + [x]], d, t) ==
      Refs(graph, d, t) + (if d == dep && t == x then 1 else 0)
  {
    if d == dep {
      assert Adj(graph[dep := Adj(graph, dep) + [x]], d) == Adj(graph, d) + [x];
    }
  }

  /** Adding task `i`'s references to the graph built from the tasks before it. */
  lemma BuildStep(prev: seq<Task>, task: Task, graph0: map<nat, seq<nat>>, graph: map<nat, seq<nat>>,
                  inDeg0: map<nat, nat>, inDeg: map<nat, nat>)
    requires task.id !in Ids(prev)
    requires Built(prev, graph0, inDeg0)
    requires var deps := FlatDeps(task.groups);
      && (forall d, t :: (Refs(graph, d, t) ==
          Refs(graph0, d, t) + (if t == task.id then multiset(deps)[d] else 0)))
      && (forall d, t :: t in Adj(graph, d) ==> t in Adj(graph0, d) || t == task.id)
      && (forall t :: Degree(inDeg, t) == Degree(inDeg0, t) + (if t == task.id then |deps| else 0))
    ensures Built(prev + [task], graph, inDeg)
  {
    var pre := prev + [task];
    DepsAppend(prev, task);
    forall d, t ensures Refs(graph, d, t) == multiset(DepsOf(pre, t))[d] {
      if t == task.id {
        assert Refs(graph0, d, t) == multiset(DepsOf(prev, t))[d] == 0;
      } else {
        assert DepsOf(pre, t) == DepsOf(prev, t);
      }
    }
    forall d, t | t in Adj(graph, d) ensures t in Ids(pre) {
      if t != task.id {
        assert t in Adj(graph0, d);
      }
    }
    forall t ensures Degree(inDeg, t) == |DepsOf(pre, t)| {
      if t == task.id {
        assert Degree(inDeg0, t) == 0;
      } else {
        assert DepsOf(pre, t) == DepsOf(prev, t);
      }
    }
  }

  /** Appending a task with a fresh id adds its references and nothing else. */
  lemma DepsAppend(prev: seq<Task>, task: Task)
    requires task.id !in Ids(prev)
    ensures Ids(prev + [task]) == Ids(prev) + {task.id}
    ensures forall t :: (DepsOf(prev + [task], t) ==
      if t == task.id then FlatDeps(task.groups) else DepsOf(prev, t))
    ensures DepsOf(prev, task.id) == []
  {
    var pre := prev + [task];
    assert pre[..|prev|] == prev;
    forall t ensures DepsOf(pre, t) == if t == task.id then FlatDeps(task.groups) else DepsOf(prev, t) {
    }
  }

  /** The initial queue: the project's tasks of in-degree zero, in task order. */
  method InitialQueue(tasks: seq<Task>, inDeg: map<nat, nat>) returns (queue: seq<nat>)
    requires DistinctIds(tasks)
    ensures Distinct(queue)
    ensures forall t :: t in queue <==> t in Ids(tasks) && Degree(inDeg, t) == 0
  {
    queue := [];
    var i := 0;
    while i < |tasks|
      invariant 0 <= i <= |tasks|
      invariant Distinct(queue)
      invariant forall t :: t in queue <==> t in Ids(tasks[..i]) && Degree(inDeg, t) == 0
    {
      var id := tasks[i].id;
      assert Ids(tasks[..i + 1]) == Ids(tasks[..i]) + {id} by {
        assert tasks[..i + 1] == tasks[..i] + [tasks[i]];
      }
      assert id !in Ids(tasks[..i]) by {
        forall k | 0 <= k < i ensures tasks[..i][k].id != id { }
      }
      if Degree(inDeg, id) == 0 {
        queue := queue + [id];
      }
      i := i + 1;
    }
    assert tasks[..i] == tasks;
  }

  /** `dependency_start`, accumulated group by group. */
  method DependencyStartOf(gs: seq<Group>, s: map<nat, Entry>, ps: int) returns (ds: int)
    ensures ds == DependencyStart(gs, s, ps)
  {
    ds := ps;
    var k := 0;
    while k < |gs|
      invariant 0 <= k <= |gs|
      invariant ds == DependencyStart(gs[..k], s, ps)
    {
      var g := gs[k];
      var dates: seq<int> := [];
      var j := 0;
      while j < |g.deps|
        invariant 0 <= j <= |g.deps|
        invariant dates == GroupDates(g.deps[..j], s)
      {
        var d := g.deps[j];
        assert g.deps[..j + 1][..j] == g.deps[..j];
        if d in s {
          dates := dates + [s[d].end];
        }
        j := j + 1;
      }
      assert g.deps[..j] == g.deps;
      if |dates| > 0 {
        var groupStart := if g.logic == And then MaxOf(dates) else MinOf(dates);
        ds := Max(ds, groupStart);
      }
      assert gs[..k + 1][..k] == gs[..k];
      k := k + 1;
    }
    assert gs[..k] == gs;
  }

  /** The inner loop over `graph[current_id]`: every reference decrements the
      dependent's in-degree, and a dependent whose in-degree reaches zero
      joins the back of the queue. */
  method ReleaseDependents(ns: seq<nat>, inDeg: map<nat, nat>, queue: seq<nat>)
    returns (inDeg': map<nat, nat>, queue': seq<nat>)
    requires forall t :: t in ns ==> multiset(ns)[t] <= Degree(inDeg, t)
    requires Distinct(queue)
    requires forall t :: t in queue ==> t !in ns
    ensures forall t :: Degree(inDeg', t) == Degree(inDeg, t) - multiset(ns)[t]
    ensures forall t :: t in queue' <==> t in queue || (t in ns && Degree(inDeg', t) == 0)
    ensures Distinct(queue')
    ensures |queue'| >= |queue| && queue'[..|queue|] == queue
  {
    inDeg', queue' := inDeg, queue;
    var j := 0;
    while j < |ns|
      invariant 0 <= j <= |ns|
      invariant forall t :: Degree(inDeg', t) == Degree(inDeg, t) - multiset(ns[..j])[t]
      invariant forall t :: t in queue' <==> t in queue || (t in ns[..j] && Degree(inDeg', t) == 0)
      invariant Distinct(queue')
      invariant |queue'| >= |queue| && queue'[..|queue|] == queue
    {
      var n := ns[j];
      assert ns[..j + 1] == ns[..j] + [n];
      assert multiset(ns[..j + 1])[n] <= multiset(ns)[n] by {
        assert ns == ns[..j + 1] + ns[j + 1..];
      }
      inDeg' := inDeg'[n := Degree(inDeg', n) - 1];
      if Degree(inDeg', n) == 0 {
        queue' := queue' + [n];
      }
      j := j + 1;
    }
    assert ns[..j] == ns;
  }

  /** Availability after one more dequeued task: advanced to the day after
      its end when it is this user's and the user is not busy elsewhere. */
  lemma AvailabilityStep(db: seq<Task>, p: nat, ps: int, order: seq<nat>, s: map<nat, Entry>, c: nat, e: Entry, u: nat)
    requires c !in order
    ensures Availability(db, p, ps, order + [c], s[c := e], u) ==
      if !Busy(db, p, u) && e.user == Some(u) then e.end + 1 else Availability(db, p, ps, order, s, u)
  {
    assert (order + [c])[..|order|] == order;
    NextFreeFrame(order, s, s[c := e], u, ps);
  }

  /** The fallback loop: every task without an entry gets its user's
      availability as start, dependencies ignored and availability not
      advanced; an unassigned one stops the run with an error. */
  method Fallback(db: seq<Task>, p: nat, ps: int, tasks: seq<Task>, ghost order: seq<nat>,
                  s0: map<nat, Entry>, avail: map<nat, int>)
    returns (r: Result<map<nat, Entry>>)
    requires DistinctIds(tasks)
    requires forall u :: AvailOf(avail, u, ps) == Availability(db, p, ps, order, s0, u)
    ensures r.Success? <==> forall t :: t in tasks && t.id !in s0 ==> t.assignee.Some?
    ensures r.Failure? ==> r.error == MissingAssignee
    ensures r.Success? ==> r.value.Keys == s0.Keys + Ids(tasks)
    ensures r.Success? ==> forall x :: x in s0 ==> r.value[x] == s0[x]
    ensures r.Success? ==> forall t :: t in tasks && t.id !in s0 ==>
      && t.assignee.Some?
      && var st := FallbackStart(db, p, ps, order, s0, t);
         r.value[t.id] == Entry(st, st + t.duration, t.assignee)
  {
    var s := s0;
    var i := 0;
    while i < |tasks|
      invariant 0 <= i <= |tasks|
      invariant s.Keys == s0.Keys + Ids(tasks[..i])
      invariant forall x :: x in s0 ==> s[x] == s0[x]
      invariant forall k :: 0 <= k < i && tasks[k].id !in s0 ==>
        && tasks[k].assignee.Some?
        && var st := FallbackStart(db, p, ps, order, s0, tasks[k]);
           s[tasks[k].id] == Entry(st, st + tasks[k].duration, tasks[k].assignee)
    {
      var t := tasks[i];
      assert tasks[..i + 1] == tasks[..i] + [t];
      assert t.id !in Ids(tasks[..i]) by {
        forall k | 0 <= k < i ensures tasks[..i][k].id != t.id { }
      }
      if t.id !in s {
        if t.assignee.None? {
          return Failure(MissingAssignee);
        }
        var start := AvailOf(avail, t.assignee.value, ps);
        s := s[t.id := Entry(start, start + t.duration, t.assignee)];
      }
      i := i + 1;
    }
    assert tasks[..i] == tasks;
    assert forall t :: t in tasks ==> exists k :: 0 <= k < |tasks| && tasks[k] == t;
    r := Success(s);
  }

  /** The write-back: every row with an entry gets its start and end dates
      and is saved with `Task.save`, which copies the privacy of the parent's
      stored row and refuses a parent in another project. A refusal stops
      the loop with the rows before it saved; the ghost `k` counts them. */
  method WriteBack(db: seq<Task>, s: map<nat, Entry>) returns (r: Outcome, db': seq<Task>, ghost k: nat)
    requires DistinctIds(db) && ParentsExist(db)
    ensures WrittenBackUpTo(db, s, db', k)
    ensures r.Pass? <==> forall i :: 0 <= i < |db| ==> !Refused(db, s, i)
    ensures r.Pass? ==> k == |db|
    ensures r.Fail? ==> r.error == SubtaskProjectMismatch && k < |db| && Refused(db, s, k)
  {
    db' := db;
    k := 0;
    var i := 0;
    while i < |db|
      invariant k == i
      invariant WrittenBackUpTo(db, s, db', i)
    {
      if db'[i].id in s {
        WriteBackSave(db, s, db', i);
        var t := Stamped(db'[i], s);
        var saved := PrepareSave(t, ParentOf(db', t));
        if saved.Failure? {
          return Fail(saved.error), db', k;
        }
        db' := db'[i := saved.value];
      }
      i := i + 1;
      k := i;
    }
    r := Pass;
  }

  /** The save of row `k`: refused exactly when `Refused` says so, and
      otherwise one more row of the prefix is saved. */
  lemma WriteBackSave(db: seq<Task>, s: map<nat, Entry>, cur: seq<Task>, k: nat)
    requires DistinctIds(db) && ParentsExist(db) && WrittenBackUpTo(db, s, cur, k) && k < |db|
    requires db[k].id in s
    ensures cur[k] == db[k] && Ids(cur) == Ids(db)
    ensures var t := Stamped(cur[k], s);
      var saved := PrepareSave(t, ParentOf(cur, t));
      && (saved.Failure? <==> Refused(db, s, k))
      && (saved.Success? ==> WrittenBackUpTo(db, s, cur[k := saved.value], k + 1))
  {
    WriteBackFacts(db, s, cur, k);
    var t := Stamped(cur[k], s);
    var saved := PrepareSave(t, ParentOf(cur, t));
    if saved.Success? {
      WriteBackStep(db, s, cur, k, saved.value);
    }
  }

  /** What the save of row `k` sees: the row itself is untouched, ids and
      projects are as before, and its parent's row carries the privacy the
      write-back left there. */
  lemma WriteBackFacts(db: seq<Task>, s: map<nat, Entry>, cur: seq<Task>, k: nat)
    requires DistinctIds(db) && ParentsExist(db) && WrittenBackUpTo(db, s, cur, k) && k < |db|
    ensures cur[k] == db[k]
    ensures Ids(cur) == Ids(db) && DistinctIds(cur)
    ensures db[k].parent.Some? ==>
      && Find(cur, db[k].parent.value).Some?
      && Find(cur, db[k].parent.value).value.project == Find(db, db[k].parent.value).value.project
      && forall j :: 0 <= j < |db| && db[j].id == db[k].parent.value ==>
           Find(cur, db[k].parent.value).value.isPrivate == if j < k then cur[j].isPrivate else db[j].isPrivate
  {
    forall i | 0 <= i < |db|
      ensures cur[i].id == db[i].id && cur[i].project == db[i].project
    {
      if i < k {
        assert SavedRow(db, s, cur, i);
      }
    }
    forall x | x in Ids(cur) ensures x in Ids(db) {
      var i := IndexOf(cur, x);
      assert db[i] in db;
    }
    forall x | x in Ids(db) ensures x in Ids(cur) {
      var i := IndexOf(db, x);
      assert cur[i] in cur;
    }
    if db[k].parent.Some? {
      var j := IndexOf(db, db[k].parent.value);
      FindAt(db, j);
      FindAt(cur, j);
      forall j' | 0 <= j' < |db| && db[j'].id == db[k].parent.value ensures j' == j {
      }
    }
  }

  /** Saving row `k` with its stamped dates and inherited privacy extends
      the saved prefix by one row. */
  lemma WriteBackStep(db: seq<Task>, s: map<nat, Entry>, cur: seq<Task>, k: nat, t': Task)
    requires ParentsExist(db) && WrittenBackUpTo(db, s, cur, k) && k < |db|
    requires db[k].id in s && !Mismatch(db, db[k])
    requires t'.(isPrivate := db[k].isPrivate) == Stamped(db[k], s)
    requires db[k].parent.None? ==> t'.isPrivate == db[k].isPrivate
    requires forall j :: 0 <= j < |db| && Some(db[j].id) == db[k].parent ==>
      t'.isPrivate == if j < k then cur[j].isPrivate else db[j].isPrivate
    ensures WrittenBackUpTo(db, s, cur[k := t'], k + 1)
  {
    var cur' := cur[k := t'];
    forall i | 0 <= i < k + 1
      ensures !Refused(db, s, i) && SavedRow(db, s, cur', i)
    {
      if i < k {
        assert SavedRow(db, s, cur, i);
        assert cur'[i] == cur[i];
        forall j | 0 <= j < i ensures cur'[j] == cur[j] { }
      }
    }
  }

  /** Scheduled rows are exactly the project's rows, so the write-back is
      refused exactly on a project row whose parent is in another project. */
  lemma ProjectRows(db: seq<Task>, p: nat, s: map<nat, Entry>)
    requires DistinctIds(db) && ParentsExist(db) && s.Keys == Ids(ProjectTasks(db, p))
    ensures forall i :: 0 <= i < |db| ==> (Refused(db, s, i) <==> db[i].project == p && Mismatch(db, db[i]))
  {
    forall i | 0 <= i < |db| ensures db[i].id in s <==> db[i].project == p {
      if db[i].id in s {
        var t :| t in ProjectTasks(db, p) && t.id == db[i].id;
        var j :| 0 <= j < |db| && db[j] == t;
      } else {
        assert db[i] in db;
      }
    }
  }

  ghost predicate GraphOk(tasks: seq<Task>, graph: map<nat, seq<nat>>)
  {
    && (forall d, t :: Refs(graph, d, t) == multiset(DepsOf(tasks, t))[d])
    && (forall d, t :: t in Adj(graph, d) ==> t in Ids(tasks))
  }

  /** The invariant of the work-queue loop. */
  ghost predicate QueueState(db: seq<Task>, p: nat, ps: int, tasks: seq<Task>, inDeg: map<nat, nat>,
                             queue: seq<nat>, s: map<nat, Entry>, avail: map<nat, int>, order: seq<nat>)
  {
    && DegreesOk(tasks, inDeg, queue, s)
    && s.Keys == (set x | x in order)
    && QueuePhaseOk(db, p, ps, tasks, order, s)
    && (forall u :: AvailOf(avail, u, ps) == Availability(db, p, ps, order, s, u))
  }

  /** The queue holds, without repetition, exactly the unscheduled tasks
      whose in-degree is zero, and the in-degree counts the prerequisite
      references still unscheduled. */
  ghost predicate DegreesOk(tasks: seq<Task>, inDeg: map<nat, nat>, queue: seq<nat>, s: map<nat, Entry>)
  {
    && (forall x :: x in queue ==> x in Ids(tasks) && x !in s)
    && Distinct(queue)
    && (forall t :: t in Ids(tasks) ==> Degree(inDeg, t) == Pending(DepsOf(tasks, t), s.Keys))
    && (forall t :: t in Ids(tasks) ==> (Degree(inDeg, t) == 0 <==> t in queue || t in s))
  }

  /** The start of a dequeued task (lines 66-79 of the source): the later
      of its dependency start and its user's availability; `advance` says
      whether the user's availability moves on afterwards. */
  method HeadStart(db: seq<Task>, p: nat, ps: int, t: Task, ghost order0: seq<nat>,
                   s0: map<nat, Entry>, avail0: map<nat, int>)
    returns (start: int, advance: bool)
    requires forall u :: AvailOf(avail0, u, ps) == Availability(db, p, ps, order0, s0, u)
    ensures start == QueueStart(db, p, ps, t, order0, s0)
    ensures advance <==> t.assignee.Some? && !Busy(db, p, t.assignee.value)
  {
    var ds := DependencyStartOf(t.groups, s0, ps);
    var userStart: int;
    advance := false;
    if t.assignee.Some? {
      var current := CurrentProject(db, t.assignee.value);
      if current.Some? && current.value != p {
        // the user is busy elsewhere; the source computes the same value
        userStart := AvailOf(avail0, t.assignee.value, ps);
      } else {
        userStart := AvailOf(avail0, t.assignee.value, ps);
        advance := true;
      }
    } else {
      userStart := ds;
    }
    start := Max(ds, userStart);
  }

  /** Records the entry of one dequeued task whose prerequisites all have
      entries, and advances its user's availability unless the user is busy
      elsewhere. */
  method ScheduleHead(db: seq<Task>, p: nat, ps: int, tasks: seq<Task>, c: nat,
                      s0: map<nat, Entry>, avail0: map<nat, int>, ghost order0: seq<nat>)
    returns (s: map<nat, Entry>, avail: map<nat, int>, ghost order: seq<nat>)
    requires DistinctIds(tasks) && c in Ids(tasks) && c !in s0
    requires forall d :: d in DepsOf(tasks, c) ==> d in s0
    requires s0.Keys == (set x | x in order0)
    requires QueuePhaseOk(db, p, ps, tasks, order0, s0)
    requires forall u :: AvailOf(avail0, u, ps) == Availability(db, p, ps, order0, s0, u)
    ensures order == order0 + [c]
    ensures s.Keys == s0.Keys + {c}
    ensures s.Keys == (set x | x in order)
    ensures QueuePhaseOk(db, p, ps, tasks, order, s)
    ensures forall u :: AvailOf(avail, u, ps) == Availability(db, p, ps, order, s, u)
  {
    var t := Find(tasks, c).value;
    var start, advance := HeadStart(db, p, ps, t, order0, s0, avail0);
    var e := Entry(start, start + t.duration, t.assignee);
    s := s0[c := e];
    avail := avail0;
    if advance {
      avail := avail[t.assignee.value := e.end + 1];
    }
    order := order0 + [c];
    QueuePhaseStep(db, p, ps, tasks, order0, s0, c, t, start, s);
    AvailabilityAdvance(db, p, ps, order0, s0, c, e, avail0, advance, avail);
  }

  lemma AvailabilityAdvance(db: seq<Task>, p: nat, ps: int, order0: seq<nat>, s0: map<nat, Entry>,
                            c: nat, e: Entry, avail0: map<nat, int>, advance: bool, avail: map<nat, int>)
    requires c !in order0
    requires forall u :: AvailOf(avail0, u, ps) == Availability(db, p, ps, order0, s0, u)
    requires advance <==> e.user.Some? && !Busy(db, p, e.user.value)
    requires avail == if advance then avail0[e.user.value := e.end + 1] else avail0
    ensures forall u :: AvailOf(avail, u, ps) == Availability(db, p, ps, order0 + [c], s0[c := e], u)
  {
    forall u ensures AvailOf(avail, u, ps) == Availability(db, p, ps, order0 + [c], s0[c := e], u) {
      AvailabilityStep(db, p, ps, order0, s0, c, e, u);
    }
  }

  /** One turn of the work-queue loop: pop the head, schedule it, release
      its dependents. */
  method ProcessHead(db: seq<Task>, p: nat, ps: int, tasks: seq<Task>, graph: map<nat, seq<nat>>,
                     inDeg0: map<nat, nat>, queue0: seq<nat>, s0: map<nat, Entry>, avail0: map<nat, int>,
                     ghost order0: seq<nat>)
    returns (inDeg: map<nat, nat>, queue: seq<nat>, s: map<nat, Entry>, avail: map<nat, int>, ghost order: seq<nat>)
    requires DistinctIds(tasks) && GraphOk(tasks, graph)
    requires QueueState(db, p, ps, tasks, inDeg0, queue0, s0, avail0, order0)
    requires queue0 != []
    ensures QueueState(db, p, ps, tasks, inDeg, queue, s, avail, order)
    ensures order == order0 + [queue0[0]] && queue0[0] in Ids(tasks) && queue0[0] !in s0
    ensures |Ids(tasks) - s.Keys| < |Ids(tasks) - s0.Keys|
  {
    var c := queue0[0];
    HeadReady(tasks, inDeg0, queue0, s0);
    s, avail, order := ScheduleHead(db, p, ps, tasks, c, s0, avail0, order0);
    var ns := Adj(graph, c);
    ReleasePreconditions(tasks, graph, inDeg0, queue0, s0);
    inDeg, queue := ReleaseDependents(ns, inDeg0, queue0[1..]);
    ReleaseEffect(tasks, graph, inDeg0, queue0, s0, inDeg, queue, s);
    Shrink(Ids(tasks), s0.Keys, c);
    StateFromParts(db, p, ps, tasks, inDeg, queue, s, avail, order);
  }

  /** The head of the queue is an unscheduled task of the project whose
      prerequisites all have entries. */
  lemma HeadReady(tasks: seq<Task>, inDeg: map<nat, nat>, queue: seq<nat>, s: map<nat, Entry>)
    requires DegreesOk(tasks, inDeg, queue, s) && queue != []
    ensures queue[0] in Ids(tasks) && queue[0] !in s
    ensures forall d :: d in DepsOf(tasks, queue[0]) ==> d in s
  {
    assert queue[0] in queue;
    PendingZero(DepsOf(tasks, queue[0]), s.Keys);
  }

  lemma StateFromParts(db: seq<Task>, p: nat, ps: int, tasks: seq<Task>, inDeg: map<nat, nat>,
                       queue: seq<nat>, s: map<nat, Entry>, avail: map<nat, int>, order: seq<nat>)
    requires DegreesOk(tasks, inDeg, queue, s)
    requires s.Keys == (set x | x in order)
    requires QueuePhaseOk(db, p, ps, tasks, order, s)
    requires forall u :: AvailOf(avail, u, ps) == Availability(db, p, ps, order, s, u)
    ensures QueueState(db, p, ps, tasks, inDeg, queue, s, avail, order)
  {
  }

  lemma Shrink(ids: set<nat>, done: set<nat>, c: nat)
    requires c in ids && c !in done
    ensures |ids - (done + {c})| < |ids - done|
  {
    assert (ids - (done + {c})) + {c} == ids - done;
  }

  lemma ReleasePreconditions(tasks: seq<Task>, graph: map<nat, seq<nat>>, inDeg: map<nat, nat>,
                             queue: seq<nat>, s: map<nat, Entry>)
    requires GraphOk(tasks, graph) && DegreesOk(tasks, inDeg, queue, s) && queue != []
    ensures var ns := Adj(graph, queue[0]);
      && (forall t :: t in ns ==> multiset(ns)[t] <= Degree(inDeg, t))
      && Distinct(queue[1..])
      && (forall t :: t in queue[1..] ==> t !in ns)
  {
    var c := queue[0];
    var ns := Adj(graph, c);
    forall t | t in ns ensures multiset(ns)[t] <= Degree(inDeg, t) {
      PendingAdd(DepsOf(tasks, t), s.Keys, c);
    }
    forall t | t in queue[1..] ensures t !in ns {
      assert t in queue;
      if t in ns {
        PendingAdd(DepsOf(tasks, t), s.Keys, c);
      }
    }
  }

  lemma ReleaseEffect(tasks: seq<Task>, graph: map<nat, seq<nat>>, inDeg0: map<nat, nat>,
                      queue0: seq<nat>, s0: map<nat, Entry>, inDeg: map<nat, nat>, queue: seq<nat>, s: map<nat, Entry>)
    requires GraphOk(tasks, graph) && DegreesOk(tasks, inDeg0, queue0, s0) && queue0 != []
    requires var ns := Adj(graph, queue0[0]);
      && (forall t :: Degree(inDeg, t) == Degree(inDeg0, t) - multiset(ns)[t])
      && (forall t :: t in queue <==> t in queue0[1..] || (t in ns && Degree(inDeg, t) == 0))
      && Distinct(queue)
    requires s.Keys == s0.Keys + {queue0[0]}
    ensures DegreesOk(tasks, inDeg, queue, s)
  {
    forall x | x in Ids(tasks)
      ensures Degree(inDeg, x) == Pending(DepsOf(tasks, x), s.Keys)
      ensures Degree(inDeg, x) == 0 <==> x in queue || x in s
    {
      ReleaseAt(tasks, graph, inDeg0, queue0, s0, inDeg, queue, s, x);
    }
    forall x | x in queue ensures x in Ids(tasks) && x !in s {
      if x !in queue0[1..] {
        assert x in Adj(graph, queue0[0]);
      } else {
        assert x in queue0;
      }
    }
  }

  /** The in-degree bookkeeping for one task after releasing the head. */
  lemma ReleaseAt(tasks: seq<Task>, graph: map<nat, seq<nat>>, inDeg0: map<nat, nat>,
                  queue0: seq<nat>, s0: map<nat, Entry>, inDeg: map<nat, nat>, queue: seq<nat>, s: map<nat, Entry>, x: nat)
    requires GraphOk(tasks, graph) && DegreesOk(tasks, inDeg0, queue0, s0) && queue0 != []
    requires var ns := Adj(graph, queue0[0]);
      && (forall t :: Degree(inDeg, t) == Degree(inDeg0, t) - multiset(ns)[t])
      && (forall t :: t in queue <==> t in queue0[1..] || (t in ns && Degree(inDeg, t) == 0))
    requires s.Keys == s0.Keys + {queue0[0]}
    requires x in Ids(tasks)
    ensures Degree(inDeg, x) == Pending(DepsOf(tasks, x), s.Keys)
    ensures Degree(inDeg, x) == 0 <==> x in queue || x in s
  {
    var c := queue0[0];
    assert c in queue0;
    var ds := DepsOf(tasks, x);
    PendingAdd(ds, s0.Keys, c);
    assert Refs(graph, c, x) == multiset(ds)[c];
    assert Degree(inDeg, x) == Degree(inDeg0, x) - multiset(ds)[c];
    if x != c && x !in s0 {
      assert x in queue0[1..] <==> x in queue0 by {
        if x in queue0 {
          var k :| 0 <= k < |queue0| && queue0[k] == x;
          assert queue0[1..][k - 1] == x;
        }
      }
      if Degree(inDeg, x) == 0 && Degree(inDeg0, x) > 0 {
        assert multiset(Adj(graph, c))[x] > 0;
      }
    }
  }

  /** The graph build and the work-queue loop: the tasks are dequeued in a
      causal order that is Kahn's fixpoint, each with its queue-phase dates,
      and the availability map is left as the order determines. */
  method QueuePhase(db: seq<Task>, p: nat, ps: int, tasks: seq<Task>)
    returns (s: map<nat, Entry>, avail: map<nat, int>, ghost order: seq<nat>)
    requires DistinctIds(tasks)
    ensures s.Keys == (set x | x in order)
    ensures QueuePhaseOk(db, p, ps, tasks, order, s)
    ensures KahnFixpoint(tasks, order)
    ensures forall u :: AvailOf(avail, u, ps) == Availability(db, p, ps, order, s, u)
  {
    var graph, inDeg := BuildGraph(tasks);
    var queue := InitialQueue(tasks, inDeg);
    s, avail := map[], map[];
    order := [];
    InitialState(db, p, ps, tasks, inDeg, queue);
    while queue != []
      invariant QueueState(db, p, ps, tasks, inDeg, queue, s, avail, order)
      decreases |Ids(tasks) - s.Keys|
    {
      inDeg, queue, s, avail, order := ProcessHead(db, p, ps, tasks, graph, inDeg, queue, s, avail, order);
    }
    ExhaustedQueue(tasks, inDeg, s, order);
  }

  lemma InitialState(db: seq<Task>, p: nat, ps: int, tasks: seq<Task>, inDeg: map<nat, nat>, queue: seq<nat>)
    requires forall t :: Degree(inDeg, t) == |DepsOf(tasks, t)|
    requires Distinct(queue)
    requires forall t :: t in queue <==> t in Ids(tasks) && Degree(inDeg, t) == 0
    ensures QueueState(db, p, ps, tasks, inDeg, queue, map[], map[], [])
  {
    forall t | t in Ids(tasks) ensures Degree(inDeg, t) == Pending(DepsOf(tasks, t), {}) { }
  }

  /** When the queue runs dry, exactly the tasks whose prerequisites were all
      dequeued have been dequeued. */
  lemma ExhaustedQueue(tasks: seq<Task>, inDeg: map<nat, nat>, s: map<nat, Entry>, order: seq<nat>)
    requires DegreesOk(tasks, inDeg, [], s)
    requires s.Keys == (set x | x in order)
    requires Causal(tasks, order)
    ensures KahnFixpoint(tasks, order)
  {
    forall id | id in Ids(tasks)
      ensures id in order <==> forall d :: d in DepsOf(tasks, id) ==> d in order
    {
      PendingZero(DepsOf(tasks, id), s.Keys);
      if id in order {
        var i :| 0 <= i < |order| && order[i] == id;
        forall d | d in DepsOf(tasks, id) ensures d in order {
          assert d in order[..i];
        }
      }
    }
  }

  /** The fallback touches no entry of the queue phase, so those stay valid,
      and the fallback dates, computed from the queue phase's availability,
      are the same read against the final schedule. */
  lemma FallbackKeepsQueuePhase(db: seq<Task>, p: nat, ps: int, tasks: seq<Task>, order: seq<nat>,
                                s: map<nat, Entry>, s': map<nat, Entry>)
    requires s.Keys == (set x | x in order)
    requires QueuePhaseOk(db, p, ps, tasks, order, s)
    requires forall x :: x in order ==> x in Ids(tasks)
    requires s'.Keys == s.Keys + Ids(tasks)
    requires forall x :: x in s ==> s'[x] == s[x]
    requires forall t :: t in tasks && t.id !in s ==>
      && t.assignee.Some?
      && var st := FallbackStart(db, p, ps, order, s, t);
         s'[t.id] == Entry(st, st + t.duration, t.assignee)
    ensures s'.Keys == Ids(tasks)
    ensures QueuePhaseOk(db, p, ps, tasks, order, s')
    ensures forall t :: t in tasks && t.id !in order ==> FallbackEntryOk(db, p, ps, order, s', t)
  {
    assert AgreeOn(order, s, s');
    QueuePhaseFrame(db, p, ps, tasks, order, s, s');
    forall t | t in tasks && t.id !in order
      ensures FallbackEntryOk(db, p, ps, order, s', t)
    {
      NextFreeFrame(order, s, s', t.assignee.value, ps);
    }
  }

  /** `calculate_project_schedule`. The ghost `order` is the order in which
      Kahn's algorithm dequeued the tasks and `sched` the schedule built
      (the source returns neither on a failure); `k` counts the rows the
      write-back saved. */
  method CalculateProjectSchedule(db: seq<Task>, p: nat, ps: int)
    returns (r: Result<map<nat, Entry>>, db': seq<Task>,
             ghost order: seq<nat>, ghost sched: map<nat, Entry>, ghost k: nat)
    requires DistinctIds(db) && ParentsExist(db)
    ensures Distinct(order)
    ensures forall x :: x in order ==> x in Ids(ProjectTasks(db, p))
    ensures Causal(ProjectTasks(db, p), order)
    ensures KahnFixpoint(ProjectTasks(db, p), order)
    ensures !FallbackAssigned(ProjectTasks(db, p), order) ==> r == Failure(MissingAssignee) && db' == db
    ensures FallbackAssigned(ProjectTasks(db, p), order) ==>
      && sched.Keys == Ids(ProjectTasks(db, p))
      && QueuePhaseOk(db, p, ps, ProjectTasks(db, p), order, sched)
      && (forall t :: t in ProjectTasks(db, p) && t.id !in order ==> FallbackEntryOk(db, p, ps, order, sched, t))
      && WrittenBackUpTo(db, sched, db', k)
      && (r.Success? <==> forall i :: 0 <= i < |db| ==> !(db[i].project == p && Mismatch(db, db[i])))
    ensures r.Success? ==> r.value == sched && k == |db|
    ensures r.Failure? && FallbackAssigned(ProjectTasks(db, p), order) ==>
      && r.error == SubtaskProjectMismatch
      && k < |db| && db[k].project == p && Mismatch(db, db[k])
  {
    var tasks := ProjectTasks(db, p);
    var s, avail;
    s, avail, order := QueuePhase(db, p, ps, tasks);
    var fb := Fallback(db, p, ps, tasks, order, s, avail);
    if fb.Failure? {
      r, db', sched, k := Failure(fb.error), db, s, 0;
      return;
    }
    var full := fb.value;
    sched := full;
    FallbackKeepsQueuePhase(db, p, ps, tasks, order, s, full);
    ProjectRows(db, p, full);
    var w;
    w, db', k := WriteBack(db, full);
    if w.Fail? {
      r := Failure(w.error);
    } else {
      r := Success(full);
    }
  }
}
