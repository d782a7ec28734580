/** Concrete runs of the coordinator: registrations and completions through
    the registry, then the settle loop and the pushes it makes. */
module Scenarios {
  import opened Results
  import opened Seqs
  import opened Ordering
  import opened Registry
  import opened Settle

  const T: string := "T"

  /** A single rule with order 1 at rank 7, no contention: its registering
      call leads, the loop reorders on the third tick, and with a count of at
      least 1 it pushes that one rule exactly once. */
  lemma SingleRuleReorder(count: int)
    requires count >= 1
    ensures
      var run := RunOps(Initial, [RegisterOp(T, 1, OrderRule(1, 7)), MarkDoneOp(T, 1)]);
      var p := PartitionOf(run.registry, T);
      && run.leaders == [true, false]
      && p == map[1 := Entry(OrderRule(1, 7), true)]
      && FirstReorder(Start, [p, p, p]) == Some(2)
      && PushList(SortOrders(p, [1]), count) == [Pair(1, OrderRule(1, 7))]
  {
    var ops := [RegisterOp(T, 1, OrderRule(1, 7)), MarkDoneOp(T, 1)];
    var g := Register(Initial, OrderRule(1, 7), 1, T);
    var r2 := MarkDone(g.registry, 1, T).value;
    var p := map[1 := Entry(OrderRule(1, 7), true)];
    assert r2.orders[T] == p;
    assert ops[1..] == [MarkDoneOp(T, 1)] && ops[1..][1..] == [];
    assert RunOps(r2, []) == Run(r2, [], false);
    assert RunOps(g.registry, ops[1..]) == Run(r2, [false], false);
    assert RunOps(Initial, ops) == Run(r2, [true, false], false);
    assert |p| == 1 by {
      assert p.Keys == {1};
    }
    assert AllDone(p);
    StablePartitionReordersOnThirdTick(p);
    var expected := [Pair(1, OrderRule(1, 7))];
    assert IsListing(expected, p) by {
      assert expected[0].id == 1;
    }
    ListingUnique(SortOrders(p, [1]), expected, p);
  }

  /** Five rules with intended orders 5, 3, 1, 4, 2 (ids 1 to 5), all at rank 7. */
  const Five: Partition := map[
    1 := Entry(OrderRule(5, 7), true),
    2 := Entry(OrderRule(3, 7), true),
    3 := Entry(OrderRule(1, 7), true),
    4 := Entry(OrderRule(4, 7), true),
    5 := Entry(OrderRule(2, 7), true)]

  const FiveSorted: seq<Pair> := [
    Pair(3, OrderRule(1, 7)), Pair(5, OrderRule(2, 7)), Pair(2, OrderRule(3, 7)),
    Pair(4, OrderRule(4, 7)), Pair(1, OrderRule(5, 7))]

  /** The sorted five list the batch. */
  lemma FiveSortedIsListing()
    ensures IsListing(FiveSorted, Five)
  {
    FiveSize();
    assert StrictlySorted(FiveSorted) by {
      forall i, j | 0 <= i < j < |FiveSorted| ensures Less(FiveSorted[i], FiveSorted[j]) {
        assert FiveSorted[i].rule.order < FiveSorted[j].rule.order;
      }
    }
    forall i | 0 <= i < |FiveSorted|
      ensures FiveSorted[i].id in Five && FiveSorted[i].rule == Five[FiveSorted[i].id].rule
    {
    }
    forall k | k in Five ensures exists i :: 0 <= i < |FiveSorted| && FiveSorted[i].id == k {
      if k == 1 { assert FiveSorted[4].id == k; }
      else if k == 2 { assert FiveSorted[2].id == k; }
      else if k == 3 { assert FiveSorted[0].id == k; }
      else if k == 4 { assert FiveSorted[3].id == k; }
      else { assert FiveSorted[1].id == k; }
    }
  }

  /** The five rules in comparator order, whatever order the map iteration
      visits their ids in. */
  lemma FiveSortedByOrder(keys: seq<int>)
    requires Enumerates(keys, Five)
    ensures SortOrders(Five, keys) == FiveSorted
  {
    var pl := SortOrders(Five, keys);
    FiveSortedIsListing();
    ListingUnique(pl, FiveSorted, Five);
  }

  lemma FiveSize()
    ensures |Five| == 5 && AllDone(Five)
  {
    assert Five.Keys == {1, 2, 3, 4, 5};
  }

  /** Filtering the sorted five by a count of 3 keeps the first three. */
  lemma FiveSortedUpToThree()
    ensures PushList(FiveSorted, 3) ==
              [Pair(3, OrderRule(1, 7)), Pair(5, OrderRule(2, 7)), Pair(2, OrderRule(3, 7))]
  {
    var reach := Reachable(3);
    assert FiveSorted[4..][1..] == [];
    assert Filter(FiveSorted[4..], reach) == [];
    assert FiveSorted[3..][1..] == FiveSorted[4..];
    assert Filter(FiveSorted[3..], reach) == [];
    assert FiveSorted[2..][1..] == FiveSorted[3..];
    assert Filter(FiveSorted[2..], reach) == [FiveSorted[2]];
    assert FiveSorted[1..][1..] == FiveSorted[2..];
    assert Filter(FiveSorted[1..], reach) == [FiveSorted[1], FiveSorted[2]];
  }

  /** The batch of five, all done by the third stable tick: the loop
      reorders on the third tick. */
  lemma FiveRulesSettle()
    ensures FirstReorder(Start, [Five, Five, Five]) == Some(2)
  {
    FiveSize();
    StablePartitionReordersOnThirdTick(Five);
  }

  /** With a count of 3 the five are pushed as ids 3, 5, 2 in that order
      (orders 1, 2, 3), and nothing whose order exceeds the count. */
  lemma FiveRulesPush(keys: seq<int>)
    requires Enumerates(keys, Five)
    ensures PushList(SortOrders(Five, keys), 3) ==
              [Pair(3, OrderRule(1, 7)), Pair(5, OrderRule(2, 7)), Pair(2, OrderRule(3, 7))]
  {
    var pl := SortOrders(Five, keys);
    FiveSortedByOrder(keys);
    assert pl == FiveSorted;
    FiveSortedUpToThree();
  }

  /** A failing count query at push time: no rule with order at least 1 is pushed. */
  lemma CountFailurePushesNothing(keys: seq<int>)
    requires Enumerates(keys, Five)
    ensures PushList(SortOrders(Five, keys), CountOf(None)) == []
  {
    FiveSortedByOrder(keys);
    CountErrorPushesNothingPositive(FiveSorted);
  }
}
