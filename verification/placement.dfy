/** Provisional placement of rank-7 rules by the three rule resources that
    use the coordinator: forwarding rules and DNS forwarding rules
    (ztw/resource_ztw_traffic_forwarding_rule.go,
    ztw/resource_ztw_traffic_forwarding_dns_rule.go) and log forwarding rules
    (ztc/resource_ztc_traffic_log_forwarding_rule.go). A create is sent to
    the API at a shared per-family starting order with rank at least 7; an
    update is sent at the order of the last existing rule with rank 7; when
    the create or update call succeeds, the configured placement is
    registered with the coordinator, which pushes it later. A failed call
    returns before registering. */
module Placement {
  import opened Results
  import opened Ordering

  datatype Family = ForwardingControl | TrafficDns | TrafficLog

  /** The coordinator partition each family registers under. */
  function Key(f: Family): string
  {
    match f
    case ForwardingControl => "forwarding_control_rule"
    case TrafficDns => "traffic_forwarding_dns_rule"
    case TrafficLog => "traffic_forwarding_log_rule"
  }

  /** The three families never share a partition, so each settles and
      reorders on its own. */
  lemma KeysDistinct(f: Family, g: Family)
    ensures Key(f) == Key(g) <==> f == g
  {
  }

  /** The rank every provisionally placed rule starts at. */
  const SentinelRank: int := 7

  /** The scan over the listed rules' orders, starting from 0 and raising
      the running value whenever a larger order appears. */
  function MaxOrder(orders: seq<int>): (m: int)
    ensures m >= 0
    ensures forall i :: 0 <= i < |orders| ==> orders[i] <= m
    ensures m == 0 || exists i :: 0 <= i < |orders| && orders[i] == m
  {
    if |orders| == 0 then 0
    else
      var rest := MaxOrder(orders[1..]);
      if orders[0] > rest then orders[0]
      else
        assert forall i :: 1 <= i < |orders| ==> orders[i] == orders[1..][i - 1];
        rest
  }

  /** The value the starting-order counter is initialised to from the
      orders of the rules GetAll lists (empty when GetAll fails): one past
      the largest order for forwarding and DNS rules, the largest order
      itself for log rules, and 1 when no order is positive. */
  function StartingOrder(f: Family, orders: seq<int>): (c: int)
    ensures c >= 1
    ensures f != TrafficLog ==> forall i :: 0 <= i < |orders| ==> orders[i] < c
    ensures f == TrafficLog ==> forall i :: 0 <= i < |orders| ==> orders[i] <= c
    ensures c == 1 || exists i :: 0 <= i < |orders| && orders[i] == (if f == TrafficLog then c else c - 1)
  {
    var m := MaxOrder(orders);
    if m == 0 then 1
    else if f == TrafficLog then m
    else m + 1
  }

  /** The counter step of a create: the counter is initialised only while
      it is 0, and then never changes. */
  function Counter(f: Family, counter: int, orders: seq<int>): (c: int)
    ensures counter != 0 ==> c == counter
    ensures counter == 0 ==> c == StartingOrder(f, orders)
    ensures c != 0
  {
    if counter == 0 then StartingOrder(f, orders) else counter
  }

  /** However many creates run and whatever each of them would list, the
      counter keeps the value the first one set. */
  lemma {:induction false} CounterFixedAfterFirstCreate(f: Family, counter: int, listings: seq<seq<int>>)
    requires |listings| > 0
    ensures CountersAfter(f, counter, listings) == Counter(f, counter, listings[0])
    decreases |listings|
  {
    if |listings| > 1 {
      CounterFixedAfterFirstCreate(f, Counter(f, counter, listings[0]), listings[1..]);
    }
  }

  /** The counter after creates that would each see the given listing. */
  function CountersAfter(f: Family, counter: int, listings: seq<seq<int>>): int
    decreases |listings|
  {
    if |listings| == 0 then counter
    else CountersAfter(f, Counter(f, counter, listings[0]), listings[1..])
  }

  /** The rank a create is sent with: ranks below 7 are raised to 7. */
  function ProvisionalRank(rank: int): (r: int)
    ensures r >= SentinelRank && r >= rank
    ensures r == rank <==> rank >= SentinelRank
    ensures r != rank ==> r == SentinelRank
  {
    if rank < SentinelRank then SentinelRank else rank
  }

  /** The order read from configuration: 0 (unset) falls back to 1. */
  function ExpandOrder(order: int): (r: int)
    ensures r != 0
    ensures order != 0 ==> r == order
    ensures order == 0 ==> r == 1
  {
    if order == 0 then 1 else order
  }

  /** What a create does with placements: the counter after it, the
      placement sent with the API create call, and the placement registered
      with the coordinator under the family's key (`None` when the create
      call failed and the resource returned before registering). */
  datatype CreatePlan = CreatePlan(counter: int, sent: OrderRule, registered: Option<OrderRule>, key: string)

  /** The placement part of a create, for a rule configured with
      `configuredOrder` and `rank`; `created` is the outcome of the API
      create call. The counter is set before the call, so it moves whatever
      the outcome. */
  function CreatePlacement(f: Family, counter: int, orders: seq<int>, configuredOrder: int, rank: int, created: bool): (p: CreatePlan)
    ensures p.counter == Counter(f, counter, orders)
    ensures p.sent.order == p.counter
    ensures p.sent.rank == ProvisionalRank(rank)
    ensures p.registered.Some? <==> created
    ensures created ==> p.registered == Some(OrderRule(ExpandOrder(configuredOrder), rank))
    ensures p.key == Key(f)
  {
    var c := Counter(f, counter, orders);
    var registered := if created then Some(OrderRule(ExpandOrder(configuredOrder), rank)) else None;
    CreatePlan(c, OrderRule(c, ProvisionalRank(rank)), registered, Key(f))
  }

  /** A create is sent at rank 7 or above and at a positive order that,
      for forwarding and DNS rules initialising the counter, lies behind
      every existing rule; the coordinator receives the configured
      placement, so a rule configured with rank 7 or above keeps its rank
      and only its order is provisional. */
  lemma CreateSendsProvisionalRegistersConfigured(f: Family, counter: int, orders: seq<int>, configuredOrder: int, rank: int)
    ensures var p := CreatePlacement(f, counter, orders, configuredOrder, rank, true);
      && p.sent.rank >= SentinelRank
      && p.sent.order != 0
      && (counter == 0 && f != TrafficLog ==> forall i :: 0 <= i < |orders| ==> orders[i] < p.sent.order)
      && (rank >= SentinelRank ==> p.sent.rank == p.registered.value.rank)
      && (rank < SentinelRank ==> p.sent.rank != p.registered.value.rank)
      && (configuredOrder >= 0 ==> p.registered.value.order >= 1)
  {
  }

  /** A failed create registers nothing, yet it has set the counter, so the
      next create of the family sends the same order as a successful one
      would have left behind. */
  lemma FailedCreateKeepsCounter(f: Family, counter: int, orders: seq<int>, configuredOrder: int, rank: int)
    ensures var failed := CreatePlacement(f, counter, orders, configuredOrder, rank, false);
      && failed.registered.None?
      && failed.counter == CreatePlacement(f, counter, orders, configuredOrder, rank, true).counter
  {
  }

  /** Two creates of the same family in one process send the same
      provisional order once the counter is set, whatever they list. */
  lemma CreatesShareStartingOrder(f: Family, counter: int, orders1: seq<int>, orders2: seq<int>, o1: int, r1: int, ok1: bool, o2: int, r2: int, ok2: bool)
    ensures var p := CreatePlacement(f, counter, orders1, o1, r1, ok1);
      CreatePlacement(f, p.counter, orders2, o2, r2, ok2).sent.order == p.sent.order
  {
  }

  /** A rule as GetAll lists it, reduced to its placement. */
  datatype Listed = Listed(rank: int, order: int)

  /** The order sort.Slice establishes on the update path: by rank, then by order. */
  predicate Before(a: Listed, b: Listed)
  {
    a.rank < b.rank || (a.rank == b.rank && a.order < b.order)
  }

  predicate SortedListing(s: seq<Listed>)
  {
    forall i, j :: 0 <= i < j < |s| ==> !Before(s[j], s[i])
  }

  /** The placement that sorts last: the highest rank, and the highest
      order within it. */
  function Greatest(s: seq<Listed>): (g: Listed)
    requires |s| > 0
    ensures g in s
    ensures forall i :: 0 <= i < |s| ==> !Before(g, s[i])
  {
    if |s| == 1 then s[0]
    else
      var rest := Greatest(s[1..]);
      assert forall i :: 1 <= i < |s| ==> s[i] == s[1..][i - 1];
      if Before(rest, s[0]) then s[0] else rest
  }

  /** The order sent with an update: the order of the last existing rule
      after sorting by (rank, order). Indexing the last element of an empty
      listing (GetAll failed or returned nothing) panics: `None`. */
  function UpdateOrder(existing: seq<Listed>): (r: Option<int>)
    ensures r.None? <==> |existing| == 0
    ensures r.Some? ==> exists i :: 0 <= i < |existing| && existing[i].order == r.value
                          && forall j :: 0 <= j < |existing| ==> !Before(existing[i], existing[j])
  {
    if |existing| == 0 then None
    else
      var g := Greatest(existing);
      var i :| 0 <= i < |existing| && existing[i] == g;
      Some(g.order)
  }

  /** sort.Slice is not stable and may arrange ties in any order, but every
      sorted arrangement of the listing ends in a rule with the same order,
      so the update's choice is determined by the listing alone. */
  lemma LastOfAnySortedArrangement(existing: seq<Listed>, sorted: seq<Listed>)
    requires multiset(sorted) == multiset(existing) && SortedListing(sorted) && |existing| > 0
    ensures sorted[|sorted| - 1].order == UpdateOrder(existing).value
  {
    var g := Greatest(existing);
    var last := sorted[|sorted| - 1];
    assert |sorted| == |existing| by {
      assert |multiset(sorted)| == |multiset(existing)|;
    }
    assert last in multiset(existing);
    assert g in multiset(sorted);
    var k :| 0 <= k < |sorted| && sorted[k] == g;
    var j :| 0 <= j < |existing| && existing[j] == last;
    assert !Before(g, last);
    if k < |sorted| - 1 {
      assert !Before(last, g);
    }
  }

  /** An update either finds the rule gone (the resource is dropped from
      state and nothing is sent), panics on an empty listing, or sends a
      placement and, when the update call succeeded, registers one. It marks
      the registered entry done only after the following Read succeeds. */
  datatype UpdatePlan =
    | UpdateGone
    | UpdatePanics
    | UpdatePlan(sent: OrderRule, registered: Option<OrderRule>, key: string, marksDone: bool)

  /** The placement part of an update: `gone` is a Get that reported the
      rule as not found, `updated` the outcome of the API update call and
      `readOk` the outcome of the Read that follows it. The update is sent
      at rank 7 unconditionally and at the last listed order; only a
      successful update registers the configured placement, and only a
      successful Read after it marks that entry done. */
  function UpdatePlacement(f: Family, gone: bool, existing: seq<Listed>, configuredOrder: int, rank: int, updated: bool, readOk: bool): (p: UpdatePlan)
    ensures p.UpdateGone? <==> gone
    ensures p.UpdatePanics? <==> !gone && |existing| == 0
    ensures p.UpdatePlan? ==>
              && p.sent == OrderRule(UpdateOrder(existing).value, SentinelRank)
              && (p.registered.Some? <==> updated)
              && (updated ==> p.registered == Some(OrderRule(ExpandOrder(configuredOrder), rank)))
              && p.key == Key(f)
              && (p.marksDone <==> updated && readOk)
              && (p.marksDone ==> p.registered.Some?)
  {
    if gone then UpdateGone
    else
      match UpdateOrder(existing)
      case None => UpdatePanics
      case Some(o) =>
        var registered := if updated then Some(OrderRule(ExpandOrder(configuredOrder), rank)) else None;
        UpdatePlan(OrderRule(o, SentinelRank), registered, Key(f), updated && readOk)
  }

  /** Unlike a create, an update lowers a configured rank above 7 to 7 in
      the provisional call. */
  lemma UpdateAlwaysSendsRankSeven(f: Family, existing: seq<Listed>, configuredOrder: int, rank: int, updated: bool, created: bool)
    requires |existing| > 0 && rank > SentinelRank
    ensures UpdatePlacement(f, false, existing, configuredOrder, rank, updated, true).sent.rank < rank
    ensures CreatePlacement(f, 1, [], configuredOrder, rank, created).sent.rank == rank
  {
  }

  /** Which of the two updateOrder callbacks the coordinator was given:
      the one passed by create always writes, the one passed by update
      skips a rule that already has the target placement. */
  datatype Caller = FromCreate | FromUpdate

  datatype PushCall =
    | FetchFailed
    | Unchanged
    | Written(ok: bool)

  /** One updateOrder call: fetch the rule (`fetched` is None when the Get
      fails), then write the target placement unless skipping. */
  function PushOrder(caller: Caller, fetched: Option<OrderRule>, target: OrderRule, writeOk: bool): (r: PushCall)
    ensures fetched.None? <==> r.FetchFailed?
    ensures r.Unchanged? <==> caller == FromUpdate && fetched == Some(target)
    ensures caller == FromCreate && fetched.Some? ==> r == Written(writeOk)
  {
    match fetched
    case None => FetchFailed
    case Some(current) =>
      if caller == FromUpdate && current == target then Unchanged else Written(writeOk)
  }

  /** The placement the rule has after the call. */
  function After(fetched: Option<OrderRule>, call: PushCall, target: OrderRule): Option<OrderRule>
  {
    match call
    case FetchFailed => fetched
    case Unchanged => Some(target)
    case Written(ok) => if ok then Some(target) else fetched
  }

  /** Both callbacks leave a fetched rule at the target placement whenever
      they report success, and the update's skip is invisible: skipping and
      writing reach the same placement. */
  lemma PushReachesTarget(caller: Caller, fetched: Option<OrderRule>, target: OrderRule, writeOk: bool)
    ensures var r := PushOrder(caller, fetched, target, writeOk);
      (r.Unchanged? || r == Written(true)) ==> After(fetched, r, target) == Some(target)
    ensures fetched.Some? && writeOk ==>
      After(fetched, PushOrder(FromUpdate, fetched, target, writeOk), target)
        == After(fetched, PushOrder(FromCreate, fetched, target, writeOk), target)
  {
  }
}
