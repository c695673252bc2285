/** A worked instance of the scheduler's contract: two unassigned tasks of
    one project, the second behind an AND group on the first. */
module ScheduleExample {
  import opened Domain
  import opened SchedulingSpec

  const A := Task(1, 7, None, 2, false, None, false, NotStarted, [], None, None)
  const B := Task(2, 7, None, 3, false, None, false, NotStarted, [Group(And, [1])], None, None)

  lemma ChainFacts()
    ensures Ids([A, B]) == {1, 2}
    ensures Find([A, B], 1) == Some(A) && Find([A, B], 2) == Some(B)
    ensures DepsOf([A, B], 1) == [] && DepsOf([A, B], 2) == [1]
  {
    assert A in [A, B] && B in [A, B];
    assert FlatDeps(B.groups) == FlatDeps([]) + [1];
  }

  lemma FirstThree(xs: seq<nat>)
    ensures |xs| > 2 ==> xs[0] in xs && xs[1] in xs && xs[2] in xs
  {
  }

  /** The queue run dequeues A, then B. */
  lemma ChainOrder(order: seq<nat>)
    requires Distinct(order) && Causal([A, B], order) && KahnFixpoint([A, B], order)
    requires forall x :: x in order ==> x in Ids([A, B])
    ensures order == [1, 2]
  {
    ChainFacts();
    assert 1 in order;
    assert 2 in order;
    var i :| 0 <= i < |order| && order[i] == 2;
    assert 1 in order[..i];
    var j :| 0 <= j < i && order[..i][j] == 1;
    assert order[j] == 1;
    assert |order| == 2 by {
      if |order| > 2 {
        FirstThree(order);
        assert false;
      }
    }
    assert j == 0 && i == 1;
  }

  /** Whatever queue run produced it, the schedule of A (2 days) and B (AND on
      A, 3 days) from day `d` dequeues A then B, with A = [d, d + 2] and
      B = [d + 2, d + 5]. */
  lemma ChainSchedule(d: int, order: seq<nat>, s: map<nat, Entry>)
    requires QueuePhaseOk([A, B], 7, d, [A, B], order, s)
    requires KahnFixpoint([A, B], order)
    ensures order == [1, 2]
    ensures 1 in s && s[1] == Entry(d, d + 2, None)
    ensures 2 in s && s[2] == Entry(d + 2, d + 5, None)
  {
    ChainOrder(order);
    ChainFacts();
    assert QueueEntryOk([A, B], 7, d, [A, B], order, s, 0);
    assert QueueEntryOk([A, B], 7, d, [A, B], order, s, 1);
    assert order[..1] == [1];
    assert GroupDates([1], s) == [d + 2] by {
      assert GroupDates([1], s) == GroupDates([], s) + [s[1].end];
    }
    assert GroupStart(Group(And, [1]), s) == Some(d + 2);
    assert DependencyStart(B.groups, s, d) == d + 2 by {
      assert B.groups[..0] == [];
    }
  }
}
