/** Lists of id/name references: the flattening of such a list into the
    single {"id": [...]} block of the Terraform state
    (flattenIDExtensionsListIDs, ztc/common.go), and the removal of a deleted
    object's id from every forwarding rule that references it
    (DetachRuleIDNameExtensions, ztc/utils.go). */
module IdLists {
  import opened Results
  import opened Seqs

  /** A reference to another object by id and name (the extension map is
      not used by either operation). */
  datatype IdNameExt = IdNameExt(id: int, name: string)

  /** An item with id 0 and no name carries no reference. */
  predicate Blank(x: IdNameExt)
  {
    x.id == 0 && x.name == ""
  }

  /** No item of the list carries a reference. */
  predicate AllBlank(list: seq<IdNameExt>)
  {
    forall i :: 0 <= i < |list| ==> Blank(list[i])
  }

  /** Keeps the items that carry a reference. */
  function NonBlank(): IdNameExt -> bool
  {
    (x: IdNameExt) => !Blank(x)
  }

  /** Keeps the references to anything but `id`. */
  function NotTo(id: int): IdNameExt -> bool
  {
    (x: IdNameExt) => x.id != id
  }

  function Ids(xs: seq<IdNameExt>): (r: seq<int>)
    ensures |r| == |xs|
    ensures forall i :: 0 <= i < |xs| ==> r[i] == xs[i].id
  {
    seq(|xs|, i requires 0 <= i < |xs| => xs[i].id)
  }

  /** The ids of the items that carry a reference, in input order. */
  function NonBlankIds(list: seq<IdNameExt>): (r: seq<int>)
    ensures |r| <= |list|
    decreases |list|
  {
    if |list| == 0 then []
    else (if Blank(list[0]) then [] else [list[0].id]) + NonBlankIds(list[1..])
  }

  /** No id is collected exactly when every item is blank. */
  lemma {:induction false} NonBlankIdsEmpty(list: seq<IdNameExt>)
    ensures |NonBlankIds(list)| == 0 <==> AllBlank(list)
    decreases |list|
  {
    if |list| > 0 {
      NonBlankIdsEmpty(list[1..]);
      if AllBlank(list[1..]) {
        forall i | 1 <= i < |list| ensures Blank(list[i]) {
          assert list[i] == list[1..][i - 1];
        }
      }
    }
  }

  /** Collecting from a list with one more item at the end. */
  lemma {:induction false} NonBlankIdsSnoc(list: seq<IdNameExt>, x: IdNameExt)
    ensures NonBlankIds(list + [x]) == NonBlankIds(list) + (if Blank(x) then [] else [x.id])
    decreases |list|
  {
    if |list| > 0 {
      assert (list + [x])[1..] == list[1..] + [x];
      NonBlankIdsSnoc(list[1..], x);
    }
  }

  /** NonBlankIds agrees with the general filter keeping the non-blank items. */
  lemma {:induction false} NonBlankIdsAreFilteredIds(list: seq<IdNameExt>)
    ensures NonBlankIds(list) == Ids(Filter(list, NonBlank()))
    decreases |list|
  {
    if |list| > 0 {
      NonBlankIdsAreFilteredIds(list[1..]);
      var rest := Filter(list[1..], NonBlank());
      if !Blank(list[0]) {
        assert Ids([list[0]] + rest) == [list[0].id] + Ids(rest);
      }
    }
  }

  /** flattenIDExtensionsListIDs: the ids of the non-blank items, in input
      order, as one {"id": ids} block; no block at all when nothing is left. */
  method FlattenIdExtensionsListIds(list: seq<IdNameExt>) returns (blocks: seq<seq<int>>)
    ensures |blocks| <= 1
    ensures |blocks| == 0 <==> AllBlank(list)
    ensures |blocks| == 1 ==> blocks[0] == NonBlankIds(list)
  {
    var ids: seq<int> := [];
    var i := 0;
    while i < |list|
      invariant 0 <= i <= |list|
      invariant ids == NonBlankIds(list[..i])
    {
      assert list[..i + 1] == list[..i] + [list[i]];
      NonBlankIdsSnoc(list[..i], list[i]);
      if !Blank(list[i]) {
        ids := ids + [list[i].id];
      }
      i := i + 1;
    }
    assert list[..i] == list;
    NonBlankIdsEmpty(list);
    if |ids| == 0 {
      blocks := [];
    } else {
      blocks := [ids];
    }
  }

  /** The references of `refs` to anything but `id`, in their original order. */
  function Without(refs: seq<IdNameExt>, id: int): (r: seq<IdNameExt>)
    ensures |r| <= |refs|
    decreases |refs|
  {
    if |refs| == 0 then []
    else
      var rest := Without(refs[1..], id);
      if refs[0].id != id then [refs[0]] + rest else rest
  }

  /** What Without removes: no kept reference is to `id`, and the length is
      kept exactly when no reference was to `id`. */
  lemma {:induction false} WithoutDropsExactly(refs: seq<IdNameExt>, id: int)
    ensures forall i :: 0 <= i < |Without(refs, id)| ==> Without(refs, id)[i].id != id
    ensures |Without(refs, id)| == |refs| <==> forall i :: 0 <= i < |refs| ==> refs[i].id != id
    decreases |refs|
  {
    if |refs| > 0 {
      WithoutDropsExactly(refs[1..], id);
      var rest := Without(refs[1..], id);
      if refs[0].id != id {
        assert Without(refs, id) == [refs[0]] + rest;
        forall i | 0 <= i < |Without(refs, id)| ensures Without(refs, id)[i].id != id {
          if i > 0 {
            assert Without(refs, id)[i] == rest[i - 1];
          }
        }
      }
      assert (forall i :: 0 <= i < |refs| ==> refs[i].id != id) <==>
             refs[0].id != id && (forall i :: 0 <= i < |refs[1..]| ==> refs[1..][i].id != id) by {
        if forall i :: 0 <= i < |refs[1..]| ==> refs[1..][i].id != id {
          forall i | 1 <= i < |refs| ensures refs[i].id != id {
            assert refs[i] == refs[1..][i - 1];
          }
        }
      }
    }
  }

  /** Removing from a list with one more reference at the end. */
  lemma {:induction false} WithoutSnoc(refs: seq<IdNameExt>, x: IdNameExt, id: int)
    ensures Without(refs + [x], id) == Without(refs, id) + (if x.id != id then [x] else [])
    decreases |refs|
  {
    if |refs| > 0 {
      assert (refs + [x])[1..] == refs[1..] + [x];
      WithoutSnoc(refs[1..], x, id);
    }
  }

  /** Without agrees with the general filter keeping the references not to `id`. */
  lemma {:induction false} WithoutIsFilter(refs: seq<IdNameExt>, id: int)
    ensures Without(refs, id) == Filter(refs, NotTo(id))
    decreases |refs|
  {
    if |refs| > 0 {
      WithoutIsFilter(refs[1..], id);
    }
  }

  /** The filter inside DetachRuleIDNameExtensions: drop every reference to
      `id`, keep the rest in order, and report whether anything was dropped. */
  method DetachFilter(refs: seq<IdNameExt>, id: int) returns (kept: seq<IdNameExt>, shouldUpdate: bool)
    ensures kept == Without(refs, id)
    ensures shouldUpdate <==> exists i :: 0 <= i < |refs| && refs[i].id == id
    ensures shouldUpdate <==> |kept| < |refs|
  {
    kept := [];
    shouldUpdate := false;
    var i := 0;
    while i < |refs|
      invariant 0 <= i <= |refs|
      invariant kept == Without(refs[..i], id)
      invariant shouldUpdate <==> |kept| < i
    {
      assert refs[..i + 1] == refs[..i] + [refs[i]];
      WithoutSnoc(refs[..i], refs[i], id);
      if refs[i].id != id {
        kept := kept + [refs[i]];
      } else {
        shouldUpdate := true;
      }
      i := i + 1;
    }
    assert refs[..i] == refs;
    WithoutDropsExactly(refs, id);
  }

  /** Removing from a list with no reference to `id` changes nothing. */
  lemma {:induction false} WithoutClean(refs: seq<IdNameExt>, id: int)
    requires forall i :: 0 <= i < |refs| ==> refs[i].id != id
    ensures Without(refs, id) == refs
    decreases |refs|
  {
    if |refs| > 0 {
      WithoutClean(refs[1..], id);
    }
  }

  /** Detaching twice removes nothing more: the kept references no longer
      mention `id`, so a second pass keeps all of them and reports no update. */
  lemma DetachIdempotent(refs: seq<IdNameExt>, id: int)
    ensures Without(Without(refs, id), id) == Without(refs, id)
  {
    WithoutDropsExactly(refs, id);
    WithoutClean(Without(refs, id), id);
  }

  /** A forwarding rule, reduced to its id and the reference list the
      detaching caller selects with its getter/setter pair. */
  datatype Rule = Rule(id: int, refs: seq<IdNameExt>)

  predicate References(r: Rule, id: int)
  {
    exists i :: 0 <= i < |r.refs| && r.refs[i].id == id
  }

  function Detached(r: Rule, id: int): Rule
  {
    Rule(r.id, Without(r.refs, id))
  }

  /** The write-back one rule contributes: the rule without the reference,
      when removing it drops something and the rule can still be fetched. */
  function DetachStep(r: Rule, id: int, fetchOk: int -> bool): seq<Rule>
  {
    if |Without(r.refs, id)| < |r.refs| && fetchOk(r.id) then [Detached(r, id)] else []
  }

  /** The rules an uninterrupted detach writes back, in list order. */
  function DetachPlan(rules: seq<Rule>, id: int, fetchOk: int -> bool): (plan: seq<Rule>)
    ensures |plan| <= |rules|
    decreases |rules|
  {
    if |rules| == 0 then []
    else DetachPlan(rules[..|rules| - 1], id, fetchOk) + DetachStep(rules[|rules| - 1], id, fetchOk)
  }

  /** A rule contributes a write-back exactly when it references `id` and
      can be fetched, and what it writes back no longer references `id`. */
  lemma DetachStepReferences(r: Rule, id: int, fetchOk: int -> bool)
    ensures |DetachStep(r, id, fetchOk)| == 1 <==> References(r, id) && fetchOk(r.id)
    ensures DetachStep(r, id, fetchOk) == [] || DetachStep(r, id, fetchOk) == [Detached(r, id)]
    ensures !References(Detached(r, id), id)
  {
    WithoutDropsExactly(r.refs, id);
  }

  /** No rule the detach writes back still references the detached id, and
      every one of them is a listed rule that did reference it. */
  lemma {:induction false} DetachPlanRemovesReference(rules: seq<Rule>, id: int, fetchOk: int -> bool)
    ensures forall j :: 0 <= j < |DetachPlan(rules, id, fetchOk)| ==>
              !References(DetachPlan(rules, id, fetchOk)[j], id)
    ensures forall j :: 0 <= j < |DetachPlan(rules, id, fetchOk)| ==>
              exists k :: 0 <= k < |rules| && References(rules[k], id) && fetchOk(rules[k].id)
                          && DetachPlan(rules, id, fetchOk)[j] == Detached(rules[k], id)
    decreases |rules|
  {
    if |rules| > 0 {
      var init := rules[..|rules| - 1];
      var last := rules[|rules| - 1];
      DetachPlanRemovesReference(init, id, fetchOk);
      DetachStepReferences(last, id, fetchOk);
      var a := DetachPlan(init, id, fetchOk);
      var b := DetachStep(last, id, fetchOk);
      var plan := DetachPlan(rules, id, fetchOk);
      assert plan == a + b;
      forall j | 0 <= j < |plan|
        ensures !References(plan[j], id)
        ensures exists k :: 0 <= k < |rules| && References(rules[k], id) && fetchOk(rules[k].id)
                            && plan[j] == Detached(rules[k], id)
      {
        if j < |a| {
          assert plan[j] == a[j];
          var k :| 0 <= k < |init| && References(init[k], id) && fetchOk(init[k].id)
                   && a[j] == Detached(init[k], id);
          assert init[k] == rules[k];
          assert 0 <= k < |rules| && References(rules[k], id) && fetchOk(rules[k].id)
                 && plan[j] == Detached(rules[k], id);
        } else {
          assert plan[j] == b[j - |a|] == Detached(last, id);
          var k := |rules| - 1;
          assert 0 <= k < |rules| && References(rules[k], id) && fetchOk(rules[k].id)
                 && plan[j] == Detached(rules[k], id);
        }
      }
    } else {
      assert DetachPlan(rules, id, fetchOk) == [];
    }
  }

  /** The plan of the first i + 1 rules extends the plan of the first i. */
  lemma DetachPlanSnoc(rules: seq<Rule>, i: int, id: int, fetchOk: int -> bool)
    requires 0 <= i < |rules|
    ensures DetachPlan(rules[..i + 1], id, fetchOk) ==
              DetachPlan(rules[..i], id, fetchOk) + DetachStep(rules[i], id, fetchOk)
  {
    assert rules[..i + 1][..i] == rules[..i];
  }

  /** The plan of a prefix of the rules is a prefix of the plan. */
  lemma {:induction false} DetachPlanPrefix(rules: seq<Rule>, k: int, id: int, fetchOk: int -> bool)
    requires 0 <= k <= |rules|
    ensures |DetachPlan(rules[..k], id, fetchOk)| <= |DetachPlan(rules, id, fetchOk)|
    ensures DetachPlan(rules[..k], id, fetchOk) ==
              DetachPlan(rules, id, fetchOk)[..|DetachPlan(rules[..k], id, fetchOk)|]
    decreases |rules|
  {
    if k == |rules| {
      assert rules[..k] == rules;
    } else {
      var init := rules[..|rules| - 1];
      assert rules[..k] == init[..k];
      DetachPlanPrefix(init, k, id, fetchOk);
      var a := DetachPlan(init, id, fetchOk);
      var b := DetachStep(rules[|rules| - 1], id, fetchOk);
      PrefixOfConcat(a, b);
      assert DetachPlan(rules, id, fetchOk) == a + b;
      var n := |DetachPlan(rules[..k], id, fetchOk)|;
      assert (a + b)[..n] == a[..n];
    }
  }

  lemma PrefixOfConcat<T>(a: seq<T>, b: seq<T>)
    ensures (a + b)[..|a|] == a
  {
  }

  /** One iteration of the detach loop: the rule to write back, if any. */
  method DetachOne(r: Rule, id: int, fetchOk: int -> bool) returns (w: seq<Rule>)
    ensures w == DetachStep(r, id, fetchOk)
  {
    var kept, shouldUpdate := DetachFilter(r.refs, id);
    if shouldUpdate && fetchOk(r.id) {
      return [Rule(r.id, kept)];
    }
    return [];
  }

  datatype DetachOutcome =
    | ListFailed
    | UpdateFailed(written: seq<Rule>)
    | AllDetached(written: seq<Rule>)

  /** The loop of DetachRuleIDNameExtensions over the listed rules: `ok`
      when every Update call succeeded; otherwise the last rule written is
      the one whose Update failed. */
  method DetachAll(rules: seq<Rule>, id: int, fetchOk: int -> bool, updateOk: int -> bool)
    returns (written: seq<Rule>, ok: bool)
    ensures ok ==> written == DetachPlan(rules, id, fetchOk)
    ensures ok ==> forall j :: 0 <= j < |written| ==> updateOk(written[j].id)
    ensures !ok ==> 0 < |written| <= |DetachPlan(rules, id, fetchOk)|
    ensures !ok ==> written == DetachPlan(rules, id, fetchOk)[..|written|]
    ensures !ok ==> !updateOk(written[|written| - 1].id)
    ensures !ok ==> forall j :: 0 <= j < |written| - 1 ==> updateOk(written[j].id)
  {
    written := [];
    var i := 0;
    while i < |rules|
      invariant 0 <= i <= |rules|
      invariant written == DetachPlan(rules[..i], id, fetchOk)
      invariant forall j :: 0 <= j < |written| ==> updateOk(written[j].id)
    {
      var w := DetachOne(rules[i], id, fetchOk);
      DetachPlanSnoc(rules, i, id, fetchOk);
      written := written + w;
      if |w| == 1 && !updateOk(w[0].id) {
        DetachPlanPrefix(rules, i + 1, id, fetchOk);
        return written, false;
      }
      i := i + 1;
    }
    assert rules[..i] == rules;
    return written, true;
  }

  /** DetachRuleIDNameExtensions over the rules GetAll returned (`None` when
      it failed). `fetchOk` and `updateOk` say which per-rule Get and Update
      calls succeed; a failed Get skips the rule, a failed Update ends the
      whole detach with that error. `written` lists the Update calls made. */
  method DetachRuleIdNameExtensions(all: Option<seq<Rule>>, id: int, fetchOk: int -> bool, updateOk: int -> bool)
    returns (out: DetachOutcome)
    ensures all.None? <==> out.ListFailed?
    ensures out.AllDetached? ==>
              && out.written == DetachPlan(all.value, id, fetchOk)
              && forall i :: 0 <= i < |out.written| ==> updateOk(out.written[i].id)
    ensures out.UpdateFailed? ==>
              && 0 < |out.written| <= |DetachPlan(all.value, id, fetchOk)|
              && out.written == DetachPlan(all.value, id, fetchOk)[..|out.written|]
              && !updateOk(out.written[|out.written| - 1].id)
              && forall i :: 0 <= i < |out.written| - 1 ==> updateOk(out.written[i].id)
  {
    if all.None? {
      return ListFailed;
    }
    var written, ok := DetachAll(all.value, id, fetchOk, updateOk);
    if ok {
      return AllDetached(written);
    }
    return UpdateFailed(written);
  }
}
