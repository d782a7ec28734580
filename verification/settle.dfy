/** The leader's settle-and-reorder loop (reorderAll in ztc/common.go) as a
    pure tick machine. Each tick observes the resource type's partition; the
    loop reorders on the first tick at which every entry is done and the last
    three observed partition sizes are equal, then pushes the corrections in
    comparator order, skipping entries whose intended order exceeds the live
    rule count. Ticker, sleeps and the lock are abstracted away. */
module Settle {
  import opened Results
  import opened Seqs
  import opened Ordering

  /** The last three partition sizes, oldest first (numResources). */
  datatype Window = Window(a: int, b: int, c: int)

  /** The window a freshly started loop begins with. */
  const Start: Window := Window(0, 0, 0)

  predicate AllDone(p: Partition)
  {
    forall k :: k in p ==> p[k].done
  }

  /** The reorder condition checked after shifting `size` into the window. */
  predicate Fires(w: Window, p: Partition)
  {
    AllDone(p) && w.b == w.c && w.c == |p|
  }

  datatype TickResult = TickResult(window: Window, reorder: bool)

  /** One tick of the loop: shift the window left, append the current size,
      and decide whether to reorder. */
  function Tick(w: Window, p: Partition): (r: TickResult)
    ensures r.window == Window(w.b, w.c, |p|)
    ensures r.reorder ==> AllDone(p)
    ensures r.reorder ==> r.window.a == r.window.b == r.window.c
    ensures AllDone(p) && r.window.a == r.window.b == r.window.c ==> r.reorder
  {
    TickResult(Window(w.b, w.c, |p|), Fires(w, p))
  }

  /** The window after the ticks that observed `ps`, in order. */
  function WindowAfter(w: Window, ps: seq<Partition>): Window
    decreases |ps|
  {
    if |ps| == 0 then w
    else WindowAfter(Window(w.b, w.c, |ps[0]|), ps[1..])
  }

  /** Index of the tick at which the loop reorders, if any tick of `ps` does. */
  function FirstReorder(w: Window, ps: seq<Partition>): (r: Option<nat>)
    ensures r.Some? ==> r.value < |ps|
    decreases |ps|
  {
    if |ps| == 0 then None
    else if Tick(w, ps[0]).reorder then Some(0)
    else match FirstReorder(Tick(w, ps[0]).window, ps[1..])
      case None => None
      case Some(k) => Some(k + 1)
  }

  /** Size of the partition observed at tick `i`; before the first tick the
      window holds zeros. */
  function SizeAt(ps: seq<Partition>, i: int): int
    requires i < |ps|
  {
    if i < 0 then 0 else |ps[i]|
  }

  /** From the start window, the window after `k` ticks holds the sizes seen
      at ticks k-3, k-2 and k-1. */
  lemma {:induction false} WindowHoldsLastThreeSizes(ps: seq<Partition>, k: nat)
    requires k <= |ps|
    ensures WindowAfter(Start, ps[..k]) == Window(SizeAt(ps, k - 3), SizeAt(ps, k - 2), SizeAt(ps, k - 1))
  {
    if k > 0 {
      WindowHoldsLastThreeSizes(ps, k - 1);
      WindowAfterSnoc(Start, ps[..k - 1], ps[k - 1]);
      assert ps[..k] == ps[..k - 1] + [ps[k - 1]];
    }
  }

  lemma {:induction false} WindowAfterSnoc(w: Window, ps: seq<Partition>, p: Partition)
    ensures WindowAfter(w, ps + [p]) == Window(WindowAfter(w, ps).b, WindowAfter(w, ps).c, |p|)
    decreases |ps|
  {
    if |ps| > 0 {
      assert (ps + [p])[1..] == ps[1..] + [p];
      WindowAfterSnoc(Window(w.b, w.c, |ps[0]|), ps[1..], p);
    }
  }

  /** The loop reorders at tick `k` exactly when `k` is the first tick whose
      condition holds, evaluated on the window the earlier ticks left. */
  lemma {:induction false} FirstReorderIsFirstFiring(w: Window, ps: seq<Partition>, k: nat)
    requires k < |ps|
    ensures FirstReorder(w, ps) == Some(k) <==>
              Fires(WindowAfter(w, ps[..k]), ps[k])
              && forall j :: 0 <= j < k ==> !Fires(WindowAfter(w, ps[..j]), ps[j])
    decreases k
  {
    assert ps[..0] == [];
    if k > 0 {
      var w' := Tick(w, ps[0]).window;
      FirstReorderIsFirstFiring(w', ps[1..], k - 1);
      forall j | 1 <= j <= k ensures WindowAfter(w, ps[..j]) == WindowAfter(w', ps[1..][..j - 1]) {
        assert ps[..j][1..] == ps[1..][..j - 1];
      }
      if Fires(w, ps[0]) {
        assert !(forall j :: 0 <= j < k ==> !Fires(WindowAfter(w, ps[..j]), ps[j])) by {
          assert WindowAfter(w, ps[..0]) == w;
        }
      } else {
        forall j | 1 <= j < k ensures ps[1..][j - 1] == ps[j] {
        }
        assert (forall j :: 0 <= j < k ==> !Fires(WindowAfter(w, ps[..j]), ps[j]))
           <==> (forall j :: 0 <= j < k - 1 ==> !Fires(WindowAfter(w', ps[1..][..j]), ps[1..][j])) by {
          forall j | 0 <= j < k - 1 ensures WindowAfter(w, ps[..j + 1]) == WindowAfter(w', ps[1..][..j]) {
          }
        }
      }
    }
  }

  /** Quiescence in the terms of the source's comment: from the start window
      the loop fires at tick `k` exactly when every entry is done and the
      sizes seen at ticks k-2, k-1 and k are equal. */
  lemma FiresIffThreeEqualSizes(ps: seq<Partition>, k: nat)
    requires k < |ps|
    ensures Fires(WindowAfter(Start, ps[..k]), ps[k]) <==>
              AllDone(ps[k]) && SizeAt(ps, k - 2) == SizeAt(ps, k - 1) == |ps[k]|
  {
    WindowHoldsLastThreeSizes(ps, k);
  }

  /** A non-empty partition cannot be reordered at the first or second tick. */
  lemma NoReorderBeforeThirdTick(ps: seq<Partition>, k: nat)
    requires k < |ps| && k < 2 && |ps[k]| > 0
    ensures FirstReorder(Start, ps) != Some(k)
  {
    FirstReorderIsFirstFiring(Start, ps, k);
    FiresIffThreeEqualSizes(ps, k);
  }

  /** While every tick observes more registrations than the one before, the
      loop never reorders. */
  lemma NeverReordersWhileGrowing(ps: seq<Partition>)
    requires |ps| > 0 ==> |ps[0]| > 0
    requires forall i :: 0 < i < |ps| ==> |ps[i - 1]| < |ps[i]|
    ensures FirstReorder(Start, ps) == None
  {
    if FirstReorder(Start, ps).Some? {
      var k := FirstReorder(Start, ps).value;
      FirstReorderIsFirstFiring(Start, ps, k);
      FiresIffThreeEqualSizes(ps, k);
      assert false;
    }
  }

  /** Once quiescence is observed at some tick, the loop has reordered at that
      tick or an earlier one. */
  lemma {:induction false} QuiescenceTriggersReorder(w: Window, ps: seq<Partition>, k: nat)
    requires k < |ps| && Fires(WindowAfter(w, ps[..k]), ps[k])
    ensures FirstReorder(w, ps).Some? && FirstReorder(w, ps).value <= k
    decreases k
  {
    if k > 0 && !Tick(w, ps[0]).reorder {
      assert ps[..k][1..] == ps[1..][..k - 1];
      QuiescenceTriggersReorder(Tick(w, ps[0]).window, ps[1..], k - 1);
    }
  }

  /** A non-empty partition that is complete and does not change is
      reordered on exactly the third tick. */
  lemma StablePartitionReordersOnThirdTick(p: Partition)
    requires AllDone(p) && |p| > 0
    ensures FirstReorder(Start, [p, p, p]) == Some(2)
  {
    var ps := [p, p, p];
    FiresIffThreeEqualSizes(ps, 0);
    FiresIffThreeEqualSizes(ps, 1);
    FiresIffThreeEqualSizes(ps, 2);
    FirstReorderIsFirstFiring(Start, ps, 2);
  }

  /** The count getCount reports: its error result carries count 0. */
  function CountOf(getCount: Option<int>): int
  {
    if getCount.Some? then getCount.value else 0
  }

  /** Whether an entry's intended order is still reachable with `count` live rules. */
  function Reachable(count: int): Pair -> bool
  {
    (p: Pair) => p.rule.order <= count
  }

  /** Whether an updateOrder call fails, given which calls succeed. */
  function Failing(update: Pair -> bool): Pair -> bool
  {
    (p: Pair) => !update(p)
  }

  /** The updateOrder calls of one reorder, in call order. */
  function PushList(sorted: seq<Pair>, count: int): (r: seq<Pair>)
    ensures forall p :: p in r <==> p in sorted && p.rule.order <= count
  {
    FilterMembers(sorted, Reachable(count));
    Filter(sorted, Reachable(count))
  }

  /** The push bound and the push order: every call targets an entry of the
      partition with its intended placement, no call has an order above the
      count, the calls follow the comparator, and every reachable entry gets
      exactly one call. */
  lemma PushListOfListing(pl: seq<Pair>, m: Partition, count: int)
    requires IsListing(pl, m)
    ensures forall i :: 0 <= i < |PushList(pl, count)| ==>
              PushList(pl, count)[i].rule.order <= count
              && PushList(pl, count)[i].id in m
              && PushList(pl, count)[i].rule == m[PushList(pl, count)[i].id].rule
    ensures StrictlySorted(PushList(pl, count))
    ensures forall k :: k in m && m[k].rule.order <= count ==> Pair(k, m[k].rule) in PushList(pl, count)
  {
    var r := PushList(pl, count);
    FilterIsSubseq(pl, Reachable(count));
    SubseqOfSortedIsSorted(r, pl);
    forall i | 0 <= i < |r| ensures r[i].id in m && r[i].rule == m[r[i].id].rule {
      assert r[i] in pl;
    }
    forall k | k in m && m[k].rule.order <= count ensures Pair(k, m[k].rule) in r {
      var i :| 0 <= i < |pl| && pl[i].id == k;
      assert pl[i] == Pair(k, m[k].rule);
    }
  }

  lemma {:induction false} SubseqOfSortedIsSorted(r: seq<Pair>, s: seq<Pair>)
    requires IsSubseq(r, s) && StrictlySorted(s)
    ensures StrictlySorted(r)
    decreases |s|
  {
    if |r| > 0 {
      if r[0] == s[0] {
        SubseqOfSortedIsSorted(r[1..], s[1..]);
        SubseqMembers(r[1..], s[1..]);
        forall j | 1 <= j < |r| ensures Less(r[0], r[j]) {
          assert r[j] in r[1..];
          var i :| 0 <= i < |s[1..]| && s[1..][i] == r[j];
          assert Less(s[0], s[i + 1]);
        }
      } else {
        SubseqOfSortedIsSorted(r, s[1..]);
      }
    }
  }

  /** When getCount fails, nothing whose intended order is at least 1 is
      pushed; if every intended order is positive, nothing is pushed at all. */
  lemma CountErrorPushesNothingPositive(sorted: seq<Pair>)
    ensures forall p :: p in PushList(sorted, CountOf(None)) ==> p.rule.order < 1
    ensures (forall i :: 0 <= i < |sorted| ==> sorted[i].rule.order >= 1) ==> PushList(sorted, CountOf(None)) == []
  {
    var r := PushList(sorted, CountOf(None));
    if |r| > 0 {
      assert r[0] in r;
    }
  }

  /** The push loop: updateOrder is called once per reachable entry in sorted
      order; `update` says whether each call succeeds, and a failure is only
      recorded, never stopping the remaining calls. */
  method Push(sorted: seq<Pair>, count: int, update: Pair -> bool) returns (calls: seq<Pair>, failed: seq<Pair>)
    ensures calls == PushList(sorted, count)
    ensures failed == Filter(calls, Failing(update))
  {
    calls := [];
    failed := [];
    var i := 0;
    while i < |sorted|
      invariant 0 <= i <= |sorted|
      invariant calls == Filter(sorted[..i], Reachable(count))
      invariant failed == Filter(calls, Failing(update))
    {
      FilterSnoc(sorted[..i], sorted[i], Reachable(count));
      assert sorted[..i + 1] == sorted[..i] + [sorted[i]];
      if sorted[i].rule.order <= count {
        FilterSnoc(calls, sorted[i], Failing(update));
        calls := calls + [sorted[i]];
        if !update(sorted[i]) {
          failed := failed + [sorted[i]];
        }
      }
      i := i + 1;
    }
    assert sorted[..i] == sorted;
  }

  /** What one tick observes: the partition, and the order in which Go's map
      iteration happens to visit its keys. */
  datatype Snapshot = Snapshot(partition: Partition, keys: seq<int>)

  function Partitions(snaps: seq<Snapshot>): (ps: seq<Partition>)
    ensures |ps| == |snaps|
    ensures forall i :: 0 <= i < |snaps| ==> ps[i] == snaps[i].partition
  {
    seq(|snaps|, i requires 0 <= i < |snaps| => snaps[i].partition)
  }

  datatype LoopOutcome =
    | StillPolling(window: Window)
    | Reordered(tick: nat, calls: seq<Pair>, failed: seq<Pair>)

  /** reorderAll over a finite prefix of ticks: the loop keeps polling until
      the first quiescent tick, then asks for the count once, pushes, and
      stops. `getCount` is the count query's result at that moment. */
  method ReorderAll(snaps: seq<Snapshot>, getCount: Option<int>, update: Pair -> bool) returns (out: LoopOutcome)
    requires forall i :: 0 <= i < |snaps| ==> Enumerates(snaps[i].keys, snaps[i].partition)
    ensures out.Reordered? <==> FirstReorder(Start, Partitions(snaps)).Some?
    ensures out.StillPolling? ==> out.window == WindowAfter(Start, Partitions(snaps))
    ensures out.Reordered? ==>
              && out.tick == FirstReorder(Start, Partitions(snaps)).value
              && IsListing(SortOrders(snaps[out.tick].partition, snaps[out.tick].keys), snaps[out.tick].partition)
              && out.calls == PushList(SortOrders(snaps[out.tick].partition, snaps[out.tick].keys), CountOf(getCount))
              && out.failed == Filter(out.calls, Failing(update))
  {
    var ps := Partitions(snaps);
    var w := Start;
    var i := 0;
    while i < |snaps|
      invariant 0 <= i <= |snaps|
      invariant w == WindowAfter(Start, ps[..i])
      invariant forall j :: 0 <= j < i ==> !Fires(WindowAfter(Start, ps[..j]), ps[j])
    {
      var t := Tick(w, snaps[i].partition);
      if t.reorder {
        FirstReorderIsFirstFiring(Start, ps, i);
        var sorted := SortOrders(snaps[i].partition, snaps[i].keys);
        var calls, failed := Push(sorted, CountOf(getCount), update);
        return Reordered(i, calls, failed);
      }
      WindowAfterSnoc(Start, ps[..i], ps[i]);
      assert ps[..i + 1] == ps[..i] + [ps[i]];
      w := t.window;
      i := i + 1;
    }
    assert ps[..i] == ps;
    if FirstReorder(Start, ps).Some? {
      FirstReorderIsFirstFiring(Start, ps, FirstReorder(Start, ps).value);
      assert false;
    }
    return StillPolling(w);
  }
}
