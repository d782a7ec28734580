/** The coordinator's process-wide registry (ztc/common.go): per resource type,
    the intended placement and completion flag of every participating rule, and
    the leader chosen for that type. The mutex that guards it in the source is
    abstracted away: each call is one atomic state transition. */
module Registry {
  import opened Results
  import opened Ordering

  /** `orders` holds one partition per resource type; `orderer` the leader id
      chosen for each type. */
  datatype Registry = Registry(orders: map<string, Partition>, orderer: map<string, int>)

  /** The registry at process start: no partitions and no leaders. */
  const Initial: Registry := Registry(map[], map[])

  /** The partition of a type, empty when the type has never been seen. */
  function PartitionOf(reg: Registry, t: string): Partition
  {
    if t in reg.orders then reg.orders[t] else map[]
  }

  /** The states the registration and completion calls can produce: every
      type with a partition has a leader, every type with a leader has a
      partition, and the leader's own entry is in that partition. */
  predicate Wf(reg: Registry)
  {
    && (forall t :: t in reg.orders ==> t in reg.orderer)
    && (forall t :: t in reg.orderer ==> t in reg.orders && reg.orderer[t] in reg.orders[t])
  }

  datatype Registration = Registration(registry: Registry, isLeader: bool)

  /** The registering half of reorderWithBeforeReorder: the first caller for a
      type becomes its leader; every caller's entry is inserted or overwritten
      with done set to whether it became leader. When the registry holds no
      partition at all, the leader table is reset first. */
  function Register(reg: Registry, rule: OrderRule, id: int, t: string): (r: Registration)
    ensures r.isLeader <==> reg.orders == map[] || t !in reg.orderer
    ensures t in r.registry.orderer
    ensures r.isLeader ==> r.registry.orderer[t] == id
    ensures !r.isLeader ==> r.registry.orderer == reg.orderer
    ensures forall t' :: t' in r.registry.orders <==> t' in reg.orders || t' == t
    ensures forall k :: k in r.registry.orders[t] <==> k in PartitionOf(reg, t) || k == id
    ensures r.registry.orders[t][id] == Entry(rule, r.isLeader)
    ensures forall k :: k in PartitionOf(reg, t) && k != id ==>
              r.registry.orders[t][k] == PartitionOf(reg, t)[k]
    ensures forall t' :: t' in reg.orders && t' != t ==> r.registry.orders[t'] == reg.orders[t']
  {
    var orderer := if reg.orders == map[] then map[] else reg.orderer;
    var isLeader := t !in orderer;
    var orderer' := if isLeader then orderer[t := id] else orderer;
    var part := PartitionOf(reg, t)[id := Entry(rule, isLeader)];
    Registration(Registry(reg.orders[t := part], orderer'), isLeader)
  }

  /** markOrderRuleAsDone: sets done on the entry (t, id), inserting a zero
      placement when the id is absent. Writing into the partition of a type
      that was never registered is a nil-map write in Go, which panics: that
      outcome is None. */
  function MarkDone(reg: Registry, id: int, t: string): (r: Option<Registry>)
    ensures r.None? <==> t !in reg.orders
    ensures r.Some? ==> r.value.orderer == reg.orderer
    ensures r.Some? ==> forall t' :: t' in r.value.orders <==> t' in reg.orders
    ensures r.Some? ==> forall k :: k in r.value.orders[t] <==> k in reg.orders[t] || k == id
    ensures r.Some? ==> r.value.orders[t][id].done
    ensures r.Some? && id in reg.orders[t] ==> r.value.orders[t][id].rule == reg.orders[t][id].rule
    ensures r.Some? && id !in reg.orders[t] ==> r.value.orders[t][id].rule == OrderRule(0, 0)
    ensures r.Some? ==> forall k :: k in reg.orders[t] && k != id ==> r.value.orders[t][k] == reg.orders[t][k]
    ensures r.Some? ==> forall t' :: t' in reg.orders && t' != t ==> r.value.orders[t'] == reg.orders[t']
  {
    if t !in reg.orders then None
    else
      var part := reg.orders[t];
      var e := if id in part then part[id] else Entry(OrderRule(0, 0), false);
      Some(Registry(reg.orders[t := part[id := Entry(e.rule, true)]], reg.orderer))
  }

  lemma InitialWf()
    ensures Wf(Initial)
  {
  }

  /** In a well-formed registry the reset branch never discards a leader, so
      a call leads exactly when its type has no leader yet, and an existing
      leader is kept. */
  lemma RegisterInWf(reg: Registry, rule: OrderRule, id: int, t: string)
    requires Wf(reg)
    ensures Register(reg, rule, id, t).isLeader <==> t !in reg.orderer
    ensures forall t' :: t' in reg.orderer ==>
              t' in Register(reg, rule, id, t).registry.orderer
              && Register(reg, rule, id, t).registry.orderer[t'] == reg.orderer[t']
    ensures forall t' :: t' in Register(reg, rule, id, t).registry.orderer <==> t' in reg.orderer || t' == t
    ensures Wf(Register(reg, rule, id, t).registry)
  {
    if t in reg.orderer {
      assert t in reg.orders;
    }
    forall t' | t' in reg.orderer ensures reg.orders != map[] {
      assert t' in reg.orders;
    }
  }

  lemma MarkDoneInWf(reg: Registry, id: int, t: string)
    requires Wf(reg)
    ensures MarkDone(reg, id, t).Some? <==> t in reg.orderer
    ensures MarkDone(reg, id, t).Some? ==> Wf(MarkDone(reg, id, t).value)
  {
  }

  /** A rule that has registered can always mark itself done afterwards. */
  lemma MarkDoneAfterRegister(reg: Registry, rule: OrderRule, id: int, t: string)
    ensures MarkDone(Register(reg, rule, id, t).registry, id, t).Some?
    ensures MarkDone(Register(reg, rule, id, t).registry, id, t).value.orders[t][id] == Entry(rule, true)
  {
  }

  /** One call of either entry point, as seen by the registry. */
  datatype Op =
    | RegisterOp(t: string, id: int, rule: OrderRule)
    | MarkDoneOp(t: string, id: int)

  /** The registry after a sequence of calls; `leaders[i]` is what call i
      returned as leadership (false for completion calls); `crashed` when a
      completion call panicked, which ends the process and the sequence. */
  datatype Run = Run(registry: Registry, leaders: seq<bool>, crashed: bool)

  function RunOps(reg: Registry, ops: seq<Op>): (r: Run)
    ensures |r.leaders| <= |ops|
    ensures !r.crashed ==> |r.leaders| == |ops|
    decreases |ops|
  {
    if |ops| == 0 then Run(reg, [], false)
    else
      match ops[0]
      case RegisterOp(t, id, rule) =>
        var reg' := Register(reg, rule, id, t);
        var rest := RunOps(reg'.registry, ops[1..]);
        Run(rest.registry, [reg'.isLeader] + rest.leaders, rest.crashed)
      case MarkDoneOp(t, id) =>
        match MarkDone(reg, id, t)
        case None => Run(reg, [], true)
        case Some(reg') =>
          var rest := RunOps(reg', ops[1..]);
          Run(rest.registry, [false] + rest.leaders, rest.crashed)
  }

  /** Call i is the first registration, among the calls, for its type. */
  predicate FirstRegistration(ops: seq<Op>, i: int)
    requires 0 <= i < |ops|
  {
    && ops[i].RegisterOp?
    && forall j :: 0 <= j < i ==> !(ops[j].RegisterOp? && ops[j].t == ops[i].t)
  }

  /** Shifting past a registration for `ops[0].t`: call i is first for its
      type among `ops[1..]` with no leader after that registration exactly
      when it is first among `ops` with no leader before it. */
  lemma FirstRegistrationAfterRegister(ops: seq<Op>, i: int, before: set<string>, after: set<string>)
    requires 1 <= i < |ops| && ops[0].RegisterOp?
    requires forall t :: t in after <==> t in before || t == ops[0].t
    ensures (FirstRegistration(ops[1..], i - 1) && ops[i].t !in after)
            <==> (FirstRegistration(ops, i) && ops[i].t !in before)
  {
    assert ops[1..][i - 1] == ops[i];
    if FirstRegistration(ops, i) {
      forall j | 0 <= j < i - 1 ensures !(ops[1..][j].RegisterOp? && ops[1..][j].t == ops[i].t) {
        assert ops[1..][j] == ops[j + 1];
      }
    }
    if FirstRegistration(ops[1..], i - 1) && ops[i].t !in after {
      forall j | 0 <= j < i ensures !(ops[j].RegisterOp? && ops[j].t == ops[i].t) {
        if j > 0 {
          assert ops[j] == ops[1..][j - 1];
        }
      }
    }
  }

  /** Shifting past a completion changes no first registration. */
  lemma FirstRegistrationAfterOther(ops: seq<Op>, i: int)
    requires 1 <= i < |ops| && !ops[0].RegisterOp?
    ensures FirstRegistration(ops[1..], i - 1) <==> FirstRegistration(ops, i)
  {
    assert ops[1..][i - 1] == ops[i];
    forall j | 0 <= j < i - 1 ensures ops[1..][j] == ops[j + 1] {
    }
  }

  /** Every sequence of calls keeps the registry well formed. */
  lemma {:induction false} RunOpsWf(reg: Registry, ops: seq<Op>)
    requires Wf(reg)
    ensures Wf(RunOps(reg, ops).registry)
    decreases |ops|
  {
    if |ops| > 0 {
      match ops[0]
      case RegisterOp(t, id, rule) =>
        RegisterInWf(reg, rule, id, t);
        RunOpsWf(Register(reg, rule, id, t).registry, ops[1..]);
      case MarkDoneOp(t, id) =>
        MarkDoneInWf(reg, id, t);
        if MarkDone(reg, id, t).Some? {
          RunOpsWf(MarkDone(reg, id, t).value, ops[1..]);
        }
    }
  }

  /** The leadership results of a run that starts with a registration. */
  lemma RunOpsRegister(reg: Registry, ops: seq<Op>)
    requires |ops| > 0 && ops[0].RegisterOp?
    ensures var g := Register(reg, ops[0].rule, ops[0].id, ops[0].t);
            RunOps(reg, ops).leaders == [g.isLeader] + RunOps(g.registry, ops[1..]).leaders
  {
  }

  /** The leadership results of a run that starts with a completion. */
  lemma RunOpsMarkDone(reg: Registry, ops: seq<Op>)
    requires |ops| > 0 && ops[0].MarkDoneOp?
    ensures MarkDone(reg, ops[0].id, ops[0].t).None? ==> RunOps(reg, ops).leaders == []
    ensures MarkDone(reg, ops[0].id, ops[0].t).Some? ==>
              RunOps(reg, ops).leaders == [false] + RunOps(MarkDone(reg, ops[0].id, ops[0].t).value, ops[1..]).leaders
  {
  }

  /** Leader uniqueness: over any interleaving of registrations and
      completions, a call becomes leader exactly when it is the first
      registration for a type that had no leader before the sequence. */
  lemma {:induction false} LeaderIsFirstRegistrant(reg: Registry, ops: seq<Op>)
    requires Wf(reg)
    ensures forall i :: 0 <= i < |RunOps(reg, ops).leaders| ==>
              (RunOps(reg, ops).leaders[i] <==> FirstRegistration(ops, i) && ops[i].t !in reg.orderer)
    decreases |ops|
  {
    if |ops| > 0 {
      var leaders := RunOps(reg, ops).leaders;
      if ops[0].RegisterOp? {
        var t := ops[0].t;
        RegisterInWf(reg, ops[0].rule, ops[0].id, t);
        var g := Register(reg, ops[0].rule, ops[0].id, t);
        var rest := RunOps(g.registry, ops[1..]).leaders;
        LeaderIsFirstRegistrant(g.registry, ops[1..]);
        RunOpsRegister(reg, ops);
        forall i | 0 <= i < |leaders|
          ensures leaders[i] <==> FirstRegistration(ops, i) && ops[i].t !in reg.orderer
        {
          if i > 0 {
            assert leaders[i] == rest[i - 1];
            FirstRegistrationAfterRegister(ops, i, reg.orderer.Keys, g.registry.orderer.Keys);
          }
        }
      } else {
        MarkDoneInWf(reg, ops[0].id, ops[0].t);
        RunOpsMarkDone(reg, ops);
        if MarkDone(reg, ops[0].id, ops[0].t).Some? {
          var reg' := MarkDone(reg, ops[0].id, ops[0].t).value;
          var rest := RunOps(reg', ops[1..]).leaders;
          LeaderIsFirstRegistrant(reg', ops[1..]);
          forall i | 0 <= i < |leaders|
            ensures leaders[i] <==> FirstRegistration(ops, i) && ops[i].t !in reg.orderer
          {
            if i > 0 {
              assert leaders[i] == rest[i - 1];
              FirstRegistrationAfterOther(ops, i);
            }
          }
        }
      }
    }
  }

  /** The leader slot of a type is never cleared or reassigned: no later call
      changes it and no later registration for that type becomes leader. */
  lemma {:induction false} LeaderSlotPersists(reg: Registry, ops: seq<Op>, t: string)
    requires Wf(reg) && t in reg.orderer
    ensures t in RunOps(reg, ops).registry.orderer
    ensures RunOps(reg, ops).registry.orderer[t] == reg.orderer[t]
    ensures forall i :: 0 <= i < |RunOps(reg, ops).leaders| && ops[i].RegisterOp? && ops[i].t == t ==>
              !RunOps(reg, ops).leaders[i]
    decreases |ops|
  {
    LeaderIsFirstRegistrant(reg, ops);
    if |ops| > 0 {
      match ops[0]
      case RegisterOp(t0, id, rule) =>
        RegisterInWf(reg, rule, id, t0);
        LeaderSlotPersists(Register(reg, rule, id, t0).registry, ops[1..], t);
      case MarkDoneOp(t0, id) =>
        MarkDoneInWf(reg, id, t0);
        if MarkDone(reg, id, t0).Some? {
          LeaderSlotPersists(MarkDone(reg, id, t0).value, ops[1..], t);
        }
    }
  }

  /** The run contains no re-registration of rule `id` under type `t`. */
  predicate NoReRegistration(ops: seq<Op>, t: string, id: int)
  {
    forall i :: 0 <= i < |ops| ==> !(ops[i].RegisterOp? && ops[i].t == t && ops[i].id == id)
  }

  /** Done monotonicity and append-only partitions: once an entry is done it
      stays present and done through any calls except a re-registration of
      that same (type, id), and no key ever leaves a partition. */
  lemma {:induction false} DoneIsMonotone(reg: Registry, ops: seq<Op>, t: string, id: int)
    requires id in PartitionOf(reg, t) && PartitionOf(reg, t)[id].done
    requires NoReRegistration(ops, t, id)
    ensures id in PartitionOf(RunOps(reg, ops).registry, t)
    ensures PartitionOf(RunOps(reg, ops).registry, t)[id].done
    ensures PartitionOf(reg, t).Keys <= PartitionOf(RunOps(reg, ops).registry, t).Keys
    decreases |ops|
  {
    if |ops| > 0 {
      assert NoReRegistration(ops[1..], t, id) by {
        forall i | 0 <= i < |ops[1..]| ensures !(ops[1..][i].RegisterOp? && ops[1..][i].t == t && ops[1..][i].id == id) {
          assert ops[1..][i] == ops[i + 1];
        }
      }
      match ops[0]
      case RegisterOp(t0, id0, rule) =>
        assert !(t0 == t && id0 == id) by { assert ops[0] == RegisterOp(t0, id0, rule); }
        var reg' := Register(reg, rule, id0, t0).registry;
        DoneIsMonotone(reg', ops[1..], t, id);
      case MarkDoneOp(t0, id0) =>
        if MarkDone(reg, id0, t0).Some? {
          DoneIsMonotone(MarkDone(reg, id0, t0).value, ops[1..], t, id);
        }
    }
  }

  /** A non-leader re-registration does reset a done entry: the flag is not
      monotone across a same-id registration. */
  lemma ReRegistrationResetsDone(reg: Registry, rule: OrderRule, id: int, t: string)
    requires Wf(reg) && t in reg.orderer
    ensures !Register(reg, rule, id, t).registry.orders[t][id].done
  {
    RegisterInWf(reg, rule, id, t);
  }
}
