/** The values the scheduler of api/scheduling.py computes, as functions, and
    what is proved about them. The dequeue order of Kahn's algorithm is a
    sequence of task ids; every date is a function of the schedule built so
    far and of that order. */
module SchedulingSpec {
  import opened Domain

  /** One schedule entry: `{'start', 'end', 'user'}`. */
  datatype Entry = Entry(start: int, end: int, user: Option<nat>)

  /** `Task.objects.filter(project=project)`, in storage order. */
  function ProjectTasks(db: seq<Task>, p: nat): (r: seq<Task>)
    ensures forall t :: t in r <==> t in db && t.project == p
    ensures DistinctIds(db) ==> DistinctIds(r)
  {
    if db == [] then []
    else
      var rest := ProjectTasks(db[..|db| - 1], p);
      var last := db[|db| - 1];
      assert forall t :: t in db <==> t in db[..|db| - 1] || t == last;
      assert DistinctIds(db) ==> last.id !in Ids(db[..|db| - 1]);
      if last.project == p then rest + [last] else rest
  }

  /** The prerequisite ids of the task with this id; none for an unknown id. */
  function DepsOf(tasks: seq<Task>, id: nat): seq<nat>
  {
    match Find(tasks, id)
    case Some(t) => FlatDeps(t.groups)
    case None => []
  }

  /** Prerequisite references not yet in `done`: the in-degree Kahn's
      algorithm keeps, one per Dependency row. */
  function Pending(ds: seq<nat>, done: set<nat>): (r: nat)
    ensures r <= |ds|
    ensures done == {} ==> r == |ds|
  {
    if ds == [] then 0
    else Pending(ds[..|ds| - 1], done) + (if ds[|ds| - 1] in done then 0 else 1)
  }

  lemma {:induction false} PendingZero(ds: seq<nat>, done: set<nat>)
    ensures Pending(ds, done) == 0 <==> forall d :: d in ds ==> d in done
  {
    if ds != [] {
      PendingZero(ds[..|ds| - 1], done);
      assert ds == ds[..|ds| - 1] + [ds[|ds| - 1]];
    }
  }

  /** Finishing `c` removes exactly its occurrences from the count. */
  lemma {:induction false} PendingAdd(ds: seq<nat>, done: set<nat>, c: nat)
    requires c !in done
    ensures Pending(ds, done) == Pending(ds, done + {c}) + multiset(ds)[c]
  {
    if ds != [] {
      var pre := ds[..|ds| - 1];
      PendingAdd(pre, done, c);
      assert ds == pre + [ds[|ds| - 1]];
    }
  }

  /** The end dates of those prerequisites that already have an entry
      (`group_dates`), in group order. */
  function GroupDates(deps: seq<nat>, s: map<nat, Entry>): (r: seq<int>)
    ensures forall x :: x in r ==> exists d :: d in deps && d in s && s[d].end == x
    ensures forall d :: d in deps && d in s ==> s[d].end in r
  {
    if deps == [] then []
    else
      var d := deps[|deps| - 1];
      assert forall e :: e in deps ==> e in deps[..|deps| - 1] || e == d;
      GroupDates(deps[..|deps| - 1], s) + (if d in s then [s[d].end] else [])
  }

  /** Python's `max` over a non-empty list. */
  function MaxOf(xs: seq<int>): (m: int)
    requires |xs| > 0
    ensures m in xs && forall x :: x in xs ==> x <= m
  {
    if |xs| == 1 then xs[0]
    else
      assert forall x :: x in xs ==> x == xs[0] || x in xs[1..];
      Max(xs[0], MaxOf(xs[1..]))
  }

  /** Python's `min` over a non-empty list. */
  function MinOf(xs: seq<int>): (m: int)
    requires |xs| > 0
    ensures m in xs && forall x :: x in xs ==> m <= x
  {
    if |xs| == 1 then xs[0]
    else
      assert forall x :: x in xs ==> x == xs[0] || x in xs[1..];
      var rest := MinOf(xs[1..]);
      if xs[0] < rest then xs[0] else rest
  }

  /** The constraint one group puts on its task: none while no prerequisite
      has an entry; the latest end for AND, the earliest end for OR. */
  function GroupStart(g: Group, s: map<nat, Entry>): (r: Option<int>)
    ensures r.None? <==> forall d :: d in g.deps ==> d !in s
    ensures r.Some? && g.logic == And ==>
      && (forall d :: d in g.deps && d in s ==> s[d].end <= r.value)
      && (exists d :: d in g.deps && d in s && s[d].end == r.value)
    ensures r.Some? && g.logic == Or ==>
      && (forall d :: d in g.deps && d in s ==> r.value <= s[d].end)
      && (exists d :: d in g.deps && d in s && s[d].end == r.value)
  {
    var dates := GroupDates(g.deps, s);
    if |dates| == 0 then
      None
    else if g.logic == And then Some(MaxOf(dates))
    else Some(MinOf(dates))
  }

  /** `dependency_start`: the project start raised by every group that
      constrains the task. It is the least such bound. */
  function DependencyStart(gs: seq<Group>, s: map<nat, Entry>, ps: int): int
  {
    if gs == [] then ps
    else
      var last := GroupStart(gs[|gs| - 1], s);
      var pre := DependencyStart(gs[..|gs| - 1], s, ps);
      if last.None? then pre else Max(pre, last.value)
  }

  /** The dependency start is the least bound at or after the project start
      that every constraining group respects, and it is attained. */
  lemma {:induction false} DependencyStartBounds(gs: seq<Group>, s: map<nat, Entry>, ps: int)
    ensures DependencyStart(gs, s, ps) >= ps
    ensures forall k :: 0 <= k < |gs| && GroupStart(gs[k], s).Some? ==>
      GroupStart(gs[k], s).value <= DependencyStart(gs, s, ps)
    ensures var r := DependencyStart(gs, s, ps);
      r == ps || exists k :: 0 <= k < |gs| && GroupStart(gs[k], s) == Some(r)
  {
    if gs != [] {
      var init := gs[..|gs| - 1];
      DependencyStartBounds(init, s, ps);
      assert forall k :: 0 <= k < |gs| - 1 ==> gs[k] == init[k];
      var r := DependencyStart(gs, s, ps);
      var pre := DependencyStart(init, s, ps);
      if r != ps && r != pre {
        assert GroupStart(gs[|gs| - 1], s) == Some(r);
      }
    }
  }

  /** Two schedules agree on the given ids. */
  ghost predicate AgreeOn(ids: seq<nat>, s: map<nat, Entry>, s': map<nat, Entry>)
  {
    forall d :: d in ids ==> (d in s <==> d in s') && (d in s ==> s[d] == s'[d])
  }

  lemma {:induction false} GroupDatesFrame(deps: seq<nat>, s: map<nat, Entry>, s': map<nat, Entry>)
    requires AgreeOn(deps, s, s')
    ensures GroupDates(deps, s) == GroupDates(deps, s')
  {
    if deps != [] {
      var pre := deps[..|deps| - 1];
      GroupDatesFrame(pre, s, s');
    }
  }

  /** The dependency start reads only the entries of the prerequisites. */
  lemma {:induction false} DependencyStartFrame(gs: seq<Group>, s: map<nat, Entry>, s': map<nat, Entry>, ps: int)
    requires AgreeOn(FlatDeps(gs), s, s')
    ensures DependencyStart(gs, s, ps) == DependencyStart(gs, s', ps)
  {
    if gs != [] {
      var pre := gs[..|gs| - 1];
      var g := gs[|gs| - 1];
      assert FlatDeps(gs) == FlatDeps(pre) + g.deps;
      DependencyStartFrame(pre, s, s', ps);
      GroupDatesFrame(g.deps, s, s');
    }
  }

  /** `handle_multiple_projects`: the project of the user's first incomplete
      task, in storage order, or none. */
  function CurrentProject(db: seq<Task>, u: nat): (r: Option<nat>)
    ensures r.None? <==> forall k :: 0 <= k < |db| ==> !(db[k].assignee == Some(u) && !db[k].isCompleted)
    ensures r.Some? ==> exists k :: (0 <= k < |db| && db[k].assignee == Some(u) && !db[k].isCompleted
      && db[k].project == r.value
      && (forall j :: 0 <= j < k ==> !(db[j].assignee == Some(u) && !db[j].isCompleted)))
  {
    if db == [] then None
    else if db[0].assignee == Some(u) && !db[0].isCompleted then Some(db[0].project)
    else
      var r := CurrentProject(db[1..], u);
      assert forall k :: 1 <= k < |db| ==> db[k] == db[1..][k - 1];
      if r.Some? then
        var k :| 0 <= k < |db[1..]| && db[1..][k].assignee == Some(u) && !db[1..][k].isCompleted
          && db[1..][k].project == r.value
          && (forall j :: 0 <= j < k ==> !(db[1..][j].assignee == Some(u) && !db[1..][j].isCompleted));
        assert db[k + 1] == db[1..][k];
        r
      else r
  }

  /** The user's first incomplete task is in another project: the scheduler
      then never advances this user's availability. */
  predicate Busy(db: seq<Task>, p: nat, u: nat)
  {
    var cur := CurrentProject(db, u);
    cur.Some? && cur.value != p
  }

  /** The day after the user's last task in `order` ends, or the project
      start when the user has no task there. */
  function NextFree(order: seq<nat>, s: map<nat, Entry>, u: nat, ps: int): int
  {
    if order == [] then ps
    else
      var x := order[|order| - 1];
      if x in s && s[x].user == Some(u) then s[x].end + 1
      else NextFree(order[..|order| - 1], s, u, ps)
  }

  /** `user_availability[u]` once the tasks of `order` are processed. */
  function Availability(db: seq<Task>, p: nat, ps: int, order: seq<nat>, s: map<nat, Entry>, u: nat): int
  {
    if Busy(db, p, u) then ps else NextFree(order, s, u, ps)
  }

  lemma {:induction false} NextFreeFrame(order: seq<nat>, s: map<nat, Entry>, s': map<nat, Entry>, u: nat, ps: int)
    requires AgreeOn(order, s, s')
    ensures NextFree(order, s, u, ps) == NextFree(order, s', u, ps)
  {
    if order != [] {
      var pre := order[..|order| - 1];
      NextFreeFrame(pre, s, s', u, ps);
    }
  }

  /** The start of a task dequeued after the tasks `before`:
      `max(dependency_start, user_start)`, where an unassigned task's
      `user_start` is its dependency start. */
  function QueueStart(db: seq<Task>, p: nat, ps: int, t: Task, before: seq<nat>, s: map<nat, Entry>): int
  {
    var ds := DependencyStart(t.groups, s, ps);
    match t.assignee
    case None => ds
    case Some(u) => Max(ds, Availability(db, p, ps, before, s, u))
  }

  /** The entry of the i-th dequeued task. */
  ghost predicate QueueEntryOk(db: seq<Task>, p: nat, ps: int, tasks: seq<Task>, order: seq<nat>, s: map<nat, Entry>, i: int)
    requires 0 <= i < |order|
  {
    && order[i] in s
    && Find(tasks, order[i]).Some?
    && var t := Find(tasks, order[i]).value;
       var st := QueueStart(db, p, ps, t, order[..i], s);
       s[order[i]] == Entry(st, st + t.duration, t.assignee)
  }

  /** The fallback start of a never-dequeued, assigned task: its user's
      availability after the whole queue, dependencies ignored. */
  function FallbackStart(db: seq<Task>, p: nat, ps: int, order: seq<nat>, s: map<nat, Entry>, t: Task): int
    requires t.assignee.Some?
  {
    Availability(db, p, ps, order, s, t.assignee.value)
  }

  ghost predicate FallbackEntryOk(db: seq<Task>, p: nat, ps: int, order: seq<nat>, s: map<nat, Entry>, t: Task)
  {
    && t.assignee.Some?
    && t.id in s
    && var st := FallbackStart(db, p, ps, order, s, t);
       s[t.id] == Entry(st, st + t.duration, t.assignee)
  }

  ghost predicate Distinct(xs: seq<nat>)
  {
    forall i, j :: 0 <= i < |xs| && 0 <= j < |xs| && i != j ==> xs[i] != xs[j]
  }

  /** Every dequeued task was dequeued after all of its prerequisites. */
  ghost predicate Causal(tasks: seq<Task>, order: seq<nat>)
  {
    forall i, d :: 0 <= i < |order| && d in DepsOf(tasks, order[i]) ==> d in order[..i]
  }

  /** A task of the project is dequeued exactly when all its prerequisites are. */
  ghost predicate KahnFixpoint(tasks: seq<Task>, order: seq<nat>)
  {
    forall id :: id in Ids(tasks) ==>
      (id in order <==> forall d :: d in DepsOf(tasks, id) ==> d in order)
  }

  /** The whole contract of the queue phase, for one dequeue order. */
  ghost predicate QueuePhaseOk(db: seq<Task>, p: nat, ps: int, tasks: seq<Task>, order: seq<nat>, s: map<nat, Entry>)
  {
    && Distinct(order)
    && (forall x :: x in order ==> x in Ids(tasks))
    && (forall k :: 0 <= k < |order| ==> order[k] in s)
    && Causal(tasks, order)
    && EntriesOk(db, p, ps, tasks, order, s)
  }

  ghost predicate EntriesOk(db: seq<Task>, p: nat, ps: int, tasks: seq<Task>, order: seq<nat>, s: map<nat, Entry>)
  {
    forall i :: 0 <= i < |order| ==> QueueEntryOk(db, p, ps, tasks, order, s, i)
  }

  lemma EntriesExtend(db: seq<Task>, p: nat, ps: int, tasks: seq<Task>, order: seq<nat>, s: map<nat, Entry>, c: nat)
    requires EntriesOk(db, p, ps, tasks, order, s)
    requires QueueEntryOk(db, p, ps, tasks, order + [c], s, |order|)
    ensures EntriesOk(db, p, ps, tasks, order + [c], s)
  {
    var order' := order + [c];
    forall i | 0 <= i < |order'| ensures QueueEntryOk(db, p, ps, tasks, order', s, i) {
      if i < |order| {
        assert order'[..i] == order[..i] && order'[i] == order[i];
        assert QueueEntryOk(db, p, ps, tasks, order, s, i);
      }
    }
  }

  lemma CausalExtend(tasks: seq<Task>, order: seq<nat>, c: nat)
    requires Causal(tasks, order)
    requires forall d :: d in DepsOf(tasks, c) ==> d in order
    ensures Causal(tasks, order + [c])
  {
    var order' := order + [c];
    forall i, d | 0 <= i < |order'| && d in DepsOf(tasks, order'[i]) ensures d in order'[..i] {
      if i < |order| {
        assert order'[..i] == order[..i] && order'[i] == order[i];
      } else {
        assert order'[..i] == order;
      }
    }
  }

  /** Adding entries for tasks outside the order changes no queue entry. */
  lemma QueuePhaseFrame(db: seq<Task>, p: nat, ps: int, tasks: seq<Task>, order: seq<nat>, s: map<nat, Entry>, s': map<nat, Entry>)
    requires QueuePhaseOk(db, p, ps, tasks, order, s)
    requires AgreeOn(order, s, s')
    ensures QueuePhaseOk(db, p, ps, tasks, order, s')
  {
    forall i | 0 <= i < |order| ensures QueueEntryOk(db, p, ps, tasks, order, s', i) {
      assert QueueEntryOk(db, p, ps, tasks, order, s, i);
      assert order[i] in order;
      var t := Find(tasks, order[i]).value;
      assert AgreeOn(FlatDeps(t.groups), s, s') by {
        forall d | d in FlatDeps(t.groups) ensures d in order {
          assert d in DepsOf(tasks, order[i]);
          assert d in order[..i];
        }
      }
      assert AgreeOn(order[..i], s, s');
      QueueStartFrame(db, p, ps, t, order[..i], s, s');
    }
  }

  lemma QueueStartFrame(db: seq<Task>, p: nat, ps: int, t: Task, before: seq<nat>, s: map<nat, Entry>, s': map<nat, Entry>)
    requires AgreeOn(FlatDeps(t.groups), s, s') && AgreeOn(before, s, s')
    ensures QueueStart(db, p, ps, t, before, s) == QueueStart(db, p, ps, t, before, s')
  {
    DependencyStartFrame(t.groups, s, s', ps);
    if t.assignee.Some? {
      NextFreeFrame(before, s, s', t.assignee.value, ps);
    }
  }

  /** Appending a newly dequeued task keeps the earlier entries valid. */
  lemma QueuePhaseStep(db: seq<Task>, p: nat, ps: int, tasks: seq<Task>, order: seq<nat>,
                       s: map<nat, Entry>, c: nat, t: Task, st: int, s': map<nat, Entry>)
    requires QueuePhaseOk(db, p, ps, tasks, order, s)
    requires s.Keys == set x | x in order
    requires c in Ids(tasks) && c !in s && Find(tasks, c) == Some(t)
    requires forall d :: d in DepsOf(tasks, c) ==> d in s
    requires st == QueueStart(db, p, ps, t, order, s)
    requires s' == s[c := Entry(st, st + t.duration, t.assignee)]
    ensures QueuePhaseOk(db, p, ps, tasks, order + [c], s')
  {
    var order' := order + [c];
    QueuePhaseFrame(db, p, ps, tasks, order, s, s');
    assert order'[..|order|] == order;
    assert AgreeOn(FlatDeps(t.groups), s, s');
    QueueStartFrame(db, p, ps, t, order, s, s');
    assert QueueEntryOk(db, p, ps, tasks, order', s', |order|);
    EntriesExtend(db, p, ps, tasks, order, s', c);
    CausalExtend(tasks, order, c);
    assert Distinct(order') by {
      assert c !in order;
    }
    assert forall x :: x in order' ==> x in Ids(tasks);
    assert forall k :: 0 <= k < |order'| ==> order'[k] in s' by {
      forall k | 0 <= k < |order'| ensures order'[k] in s' {
        if k < |order| { assert order'[k] == order[k]; }
      }
    }
    assert QueuePhaseOk(db, p, ps, tasks, order', s');
  }

  /** Schedule entries written back on the rows (`task.start_date`, `task.end_date`). */
  function Stamped(t: Task, s: map<nat, Entry>): (r: Task)
    ensures t.id in s ==> r.startDate == Some(s[t.id].start) && r.endDate == Some(s[t.id].end)
    ensures r.(startDate := t.startDate, endDate := t.endDate) == t
    ensures t.id !in s ==> r == t
  {
    if t.id in s then t.(startDate := Some(s[t.id].start), endDate := Some(s[t.id].end)) else t
  }

  /** Every task the queue never reached has an assignee, so the fallback
      can read its user. */
  ghost predicate FallbackAssigned(tasks: seq<Task>, order: seq<nat>)
  {
    forall t :: t in tasks && t.id !in order ==> t.assignee.Some?
  }

  /** The write-back's `task.save()` of row `i` is refused: the row has an
      entry and its parent is in another project. */
  ghost predicate Refused(db: seq<Task>, s: map<nat, Entry>, i: int)
    requires ParentsExist(db) && 0 <= i < |db|
  {
    db[i].id in s && Mismatch(db, db[i])
  }

  /** Row `i` after the write-back: a row with an entry is stamped with its
      dates and saved, so it takes the privacy of its parent's row as stored
      at that moment (already saved when it comes earlier); nothing else
      changes, and a row without an entry is not saved. */
  ghost predicate SavedRow(db: seq<Task>, s: map<nat, Entry>, db': seq<Task>, i: int)
    requires 0 <= i < |db| == |db'|
  {
    if db[i].id in s then
      && db'[i].(isPrivate := db[i].isPrivate) == Stamped(db[i], s)
      && (db[i].parent.None? ==> db'[i].isPrivate == db[i].isPrivate)
      && (forall j :: 0 <= j < |db| && Some(db[j].id) == db[i].parent ==>
            db'[i].isPrivate == if j < i then db'[j].isPrivate else db[j].isPrivate)
    else db'[i] == db[i]
  }

  /** The write-back has saved the first `k` rows, none of them refused, and
      left the others as they were. */
  ghost predicate WrittenBackUpTo(db: seq<Task>, s: map<nat, Entry>, db': seq<Task>, k: int)
    requires ParentsExist(db)
  {
    && 0 <= k <= |db| == |db'|
    && (forall i :: 0 <= i < k ==> !Refused(db, s, i) && SavedRow(db, s, db', i))
    && (forall i :: k <= i < |db| ==> db'[i] == db[i])
  }

  // ---------------------------------------------------------------------------
  // Properties of a schedule that meets the contract.

  /** A dequeued task starts no earlier than the project, every non-empty
      AND group's latest end and every non-empty OR group's earliest end. */
  lemma QueueStartBounds(db: seq<Task>, p: nat, ps: int, tasks: seq<Task>, order: seq<nat>, s: map<nat, Entry>, i: int)
    requires QueuePhaseOk(db, p, ps, tasks, order, s) && 0 <= i < |order|
    ensures var t := Find(tasks, order[i]).value;
      && s[order[i]].start >= ps
      && s[order[i]].end == s[order[i]].start + t.duration
      && (forall k, d :: 0 <= k < |t.groups| && t.groups[k].logic == And && d in t.groups[k].deps
            ==> d in s && s[order[i]].start >= s[d].end)
      && (forall k :: 0 <= k < |t.groups| && t.groups[k].logic == Or && t.groups[k].deps != [] ==>
            exists d :: d in t.groups[k].deps && d in s && s[order[i]].start >= s[d].end)
  {
    var t := Find(tasks, order[i]).value;
    assert QueueEntryOk(db, p, ps, tasks, order, s, i);
    var ds := DependencyStart(t.groups, s, ps);
    DependencyStartBounds(t.groups, s, ps);
    assert s[order[i]].start >= ds;
    forall k, d | 0 <= k < |t.groups| && d in t.groups[k].deps
      ensures d in s
    {
      assert d in FlatDeps(t.groups);
      assert d in DepsOf(tasks, order[i]);
      assert d in order[..i];
    }
    forall k | 0 <= k < |t.groups| && t.groups[k].deps != []
      ensures GroupStart(t.groups[k], s).Some?
    {
      assert t.groups[k].deps[0] in t.groups[k].deps;
    }
  }

  /** An unassigned dequeued task, or one whose user is busy on another
      project, starts exactly at its dependency start. */
  lemma QueueStartWithoutAvailability(db: seq<Task>, p: nat, ps: int, tasks: seq<Task>, order: seq<nat>, s: map<nat, Entry>, i: int)
    requires QueuePhaseOk(db, p, ps, tasks, order, s) && 0 <= i < |order|
    requires var t := Find(tasks, order[i]).value;
      t.assignee.None? || Busy(db, p, t.assignee.value)
    ensures s[order[i]].start == DependencyStart(Find(tasks, order[i]).value.groups, s, ps)
  {
    assert QueueEntryOk(db, p, ps, tasks, order, s, i);
    DependencyStartBounds(Find(tasks, order[i]).value.groups, s, ps);
  }

  /** An assigned dequeued task never starts before its user's availability. */
  lemma QueueStartAfterAvailability(db: seq<Task>, p: nat, ps: int, tasks: seq<Task>, order: seq<nat>, s: map<nat, Entry>, i: int)
    requires QueuePhaseOk(db, p, ps, tasks, order, s) && 0 <= i < |order|
    requires Find(tasks, order[i]).value.assignee.Some?
    ensures var u := Find(tasks, order[i]).value.assignee.value;
      && s[order[i]].start >= Availability(db, p, ps, order[..i], s, u)
      && s[order[i]].user == Some(u)
  {
    assert QueueEntryOk(db, p, ps, tasks, order, s, i);
  }

  /** Each of the user's tasks in `order` ends no earlier than the user was free. */
  ghost predicate Serialised(order: seq<nat>, s: map<nat, Entry>, u: nat, ps: int)
  {
    forall k :: 0 <= k < |order| && order[k] in s && s[order[k]].user == Some(u) ==>
      s[order[k]].end >= NextFree(order[..k], s, u, ps)
  }

  lemma {:induction false} NextFreeAfter(order: seq<nat>, s: map<nat, Entry>, u: nat, ps: int, i: int, j: int)
    requires Serialised(order, s, u, ps)
    requires 0 <= i < j <= |order|
    requires order[i] in s && s[order[i]].user == Some(u)
    ensures NextFree(order[..j], s, u, ps) >= s[order[i]].end + 1
    decreases j
  {
    var pre := order[..j][..j - 1];
    assert pre == order[..j - 1];
    var x := order[j - 1];
    assert order[..j][j - 1] == x;
    if j - 1 != i {
      NextFreeAfter(order, s, u, ps, i, j - 1);
    }
  }

  /** Resource serialisation: two dequeued tasks of a user who is not busy
      elsewhere never overlap, with a one-day buffer between them. */
  lemma SameUserNoOverlap(db: seq<Task>, p: nat, ps: int, tasks: seq<Task>, order: seq<nat>,
                          s: map<nat, Entry>, u: nat, i: int, j: int)
    requires QueuePhaseOk(db, p, ps, tasks, order, s)
    requires !Busy(db, p, u)
    requires 0 <= i < j < |order|
    requires s[order[i]].user == Some(u) && s[order[j]].user == Some(u)
    ensures s[order[j]].start >= s[order[i]].end + 1
  {
    assert Serialised(order, s, u, ps) by {
      forall k | 0 <= k < |order| && order[k] in s && s[order[k]].user == Some(u)
        ensures s[order[k]].end >= NextFree(order[..k], s, u, ps)
      {
        assert QueueEntryOk(db, p, ps, tasks, order, s, k);
      }
    }
    assert QueueEntryOk(db, p, ps, tasks, order, s, j);
    NextFreeAfter(order, s, u, ps, i, j);
  }

  /** The dequeued tasks form the least set closed under "all prerequisites
      are in it": any closed set contains them. */
  lemma {:induction false} KahnSetIsLeast(tasks: seq<Task>, order: seq<nat>, closed: set<nat>, k: int)
    requires Causal(tasks, order)
    requires forall x :: x in order ==> x in Ids(tasks)
    requires forall id :: id in Ids(tasks) && (forall d :: d in DepsOf(tasks, id) ==> d in closed) ==> id in closed
    requires 0 <= k <= |order|
    ensures forall x :: x in order[..k] ==> x in closed
  {
    if k > 0 {
      KahnSetIsLeast(tasks, order, closed, k - 1);
      assert order[..k] == order[..k - 1] + [order[k - 1]];
      forall d | d in DepsOf(tasks, order[k - 1]) ensures d in closed {
        assert d in order[..k - 1];
      }
    }
  }

  /** A set of tasks in which each one depends on another one of the set (a
      dependency cycle) is never dequeued: those tasks get fallback dates. */
  lemma {:induction false} CycleNeverDequeued(tasks: seq<Task>, order: seq<nat>, cycle: set<nat>, k: int)
    requires Causal(tasks, order)
    requires forall x :: x in cycle ==> exists d :: d in DepsOf(tasks, x) && d in cycle
    requires 0 <= k <= |order|
    ensures forall x :: x in order[..k] ==> x !in cycle
  {
    if k > 0 {
      CycleNeverDequeued(tasks, order, cycle, k - 1);
      assert order[..k] == order[..k - 1] + [order[k - 1]];
      forall d | d in DepsOf(tasks, order[k - 1]) ensures d !in cycle {
        assert d in order[..k - 1];
      }
    }
  }
}
