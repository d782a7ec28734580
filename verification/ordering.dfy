/** Intended placements, the (id, placement) pairs the coordinator sorts, the
    comparator that orders them, and the sort that turns one registry partition
    into the sequence in which corrections are pushed (ztc/common.go). */
module Ordering {

  /** The placement a rule's configuration asks for: its position and its
      admin rank. */
  datatype OrderRule = OrderRule(order: int, rank: int)

  /** A registry entry: the intended placement and whether the rule's own
      create/update call has finished. */
  datatype Entry = Entry(rule: OrderRule, done: bool)

  /** One resource type's registry partition, keyed by rule id. */
  type Partition = map<int, Entry>

  /** A rule id together with its intended placement. */
  datatype Pair = Pair(id: int, rule: OrderRule)

  /** The comparator of the push sequence: identical placements are ordered
      by id; otherwise lower rank first and, within a rank, lower order first. */
  predicate Less(a: Pair, b: Pair)
  {
    if a.rule == b.rule then a.id < b.id
    else a.rule.rank < b.rule.rank || (a.rule.rank == b.rule.rank && a.rule.order < b.rule.order)
  }

  /** Reference reading of the comparator: lexicographic on (rank, order, id). */
  predicate LexLess(a: Pair, b: Pair)
  {
    || a.rule.rank < b.rule.rank
    || (a.rule.rank == b.rule.rank && a.rule.order < b.rule.order)
    || (a.rule.rank == b.rule.rank && a.rule.order == b.rule.order && a.id < b.id)
  }

  lemma LessIsLexicographic(a: Pair, b: Pair)
    ensures Less(a, b) <==> LexLess(a, b)
  {
  }

  lemma LessIrreflexive(a: Pair)
    ensures !Less(a, a)
  {
  }

  lemma LessAsymmetric(a: Pair, b: Pair)
    ensures Less(a, b) ==> !Less(b, a)
  {
  }

  lemma LessTransitive(a: Pair, b: Pair, c: Pair)
    ensures Less(a, b) && Less(b, c) ==> Less(a, c)
  {
  }

  /** Any two different pairs are comparable; in particular pairs with
      different ids always are. */
  lemma LessTotal(a: Pair, b: Pair)
    ensures a != b ==> Less(a, b) || Less(b, a)
    ensures a.id != b.id ==> Less(a, b) || Less(b, a)
  {
  }

  predicate StrictlySorted(s: seq<Pair>)
  {
    forall i, j :: 0 <= i < j < |s| ==> Less(s[i], s[j])
  }

  predicate NoDuplicates(s: seq<Pair>)
  {
    forall i, j :: 0 <= i < j < |s| ==> s[i] != s[j]
  }

  /** Inserts `x` at its place in a strictly sorted sequence. */
  function Insert(x: Pair, s: seq<Pair>): (r: seq<Pair>)
    requires StrictlySorted(s) && x !in s
    ensures multiset(r) == multiset{x} + multiset(s)
    ensures StrictlySorted(r)
  {
    if |s| == 0 then [x]
    else if Less(x, s[0]) then [x] + s
    else
      assert s == [s[0]] + s[1..];
      var rest := Insert(x, s[1..]);
      InsertBehindHead(x, s, rest);
      [s[0]] + rest
  }

  /** The step of `Insert` that keeps the head in front. */
  lemma InsertBehindHead(x: Pair, s: seq<Pair>, rest: seq<Pair>)
    requires StrictlySorted(s) && |s| > 0 && x !in s && !Less(x, s[0])
    requires StrictlySorted(rest) && multiset(rest) == multiset{x} + multiset(s[1..])
    ensures StrictlySorted([s[0]] + rest)
  {
    var r := [s[0]] + rest;
    forall i, j | 0 <= i < j < |r| ensures Less(r[i], r[j]) {
      if i == 0 {
        var y := rest[j - 1];
        assert multiset(rest)[y] > 0;
        if y == x {
          LessTotal(x, s[0]);
        } else {
          assert y in s[1..];
          var k :| 1 <= k < |s| && s[k] == y;
          assert Less(s[0], s[k]);
        }
      } else {
        assert r[i] == rest[i - 1] && r[j] == rest[j - 1];
      }
    }
  }

  /** Insertion sort under `Less`; on duplicate-free input the result is the
      strictly increasing arrangement of the same elements. */
  function Sort(s: seq<Pair>): (r: seq<Pair>)
    requires NoDuplicates(s)
    ensures multiset(r) == multiset(s)
    ensures StrictlySorted(r)
  {
    if |s| == 0 then []
    else
      assert s == [s[0]] + s[1..];
      var rest := Sort(s[1..]);
      assert s[0] !in rest by {
        assert s[0] !in s[1..];
        assert multiset(rest)[s[0]] == multiset(s[1..])[s[0]];
      }
      Insert(s[0], rest)
  }

  /** `pl` lists every entry of `m` exactly once, as (id, intended placement),
      in strictly increasing `Less` order. */
  predicate IsListing(pl: seq<Pair>, m: Partition)
  {
    && StrictlySorted(pl)
    && |pl| == |m|
    && (forall i :: 0 <= i < |pl| ==> pl[i].id in m && pl[i].rule == m[pl[i].id].rule)
    && (forall k :: k in m ==> exists i :: 0 <= i < |pl| && pl[i].id == k)
  }

  /** `keys` is one iteration order of the partition: every key exactly once.
      Go leaves map iteration order unspecified, so it is a parameter here. */
  predicate Enumerates(keys: seq<int>, m: Partition)
  {
    && (forall i, j :: 0 <= i < j < |keys| ==> keys[i] != keys[j])
    && (forall k :: k in m ==> k in keys)
    && (forall i :: 0 <= i < |keys| ==> keys[i] in m)
  }

  /** sortOrders: one (id, intended placement) pair per key of the partition,
      collected in iteration order and then sorted by `Less`. */
  function SortOrders(m: Partition, keys: seq<int>): (pl: seq<Pair>)
    requires Enumerates(keys, m)
    ensures |pl| == |m|
    ensures IsListing(pl, m)
  {
    var collected := seq(|keys|, i requires 0 <= i < |keys| => Pair(keys[i], m[keys[i]].rule));
    EnumerationSize(keys, m);
    assert forall k :: k in m ==> exists i :: 0 <= i < |collected| && collected[i].id == k by {
      forall k | k in m ensures exists i :: 0 <= i < |collected| && collected[i].id == k {
        var i :| 0 <= i < |keys| && keys[i] == k;
        assert collected[i].id == k;
      }
    }
    SortedCollectionIsListing(collected, m);
    Sort(collected)
  }

  /** An enumeration has exactly as many elements as the partition has keys. */
  lemma EnumerationSize(keys: seq<int>, m: Partition)
    requires Enumerates(keys, m)
    ensures |keys| == |m|
  {
    DistinctCard(keys);
    forall k ensures k in (set k | k in keys) <==> k in m.Keys {
      if k in keys {
        var i :| 0 <= i < |keys| && keys[i] == k;
      }
    }
    assert (set k | k in keys) == m.Keys;
  }

  lemma {:induction false} DistinctCard(keys: seq<int>)
    requires forall i, j :: 0 <= i < j < |keys| ==> keys[i] != keys[j]
    ensures |set k | k in keys| == |keys|
  {
    if |keys| > 0 {
      var tail := keys[1..];
      DistinctCard(tail);
      assert (set k | k in keys) == {keys[0]} + (set k | k in tail);
      assert keys[0] !in (set k | k in tail);
    }
  }

  /** Sorting a duplicate-free collection of a partition's pairs that covers
      every key yields its listing. */
  lemma SortedCollectionIsListing(c: seq<Pair>, m: Partition)
    requires |c| == |m|
    requires forall i :: 0 <= i < |c| ==> c[i].id in m && c[i].rule == m[c[i].id].rule
    requires forall i, j :: 0 <= i < j < |c| ==> c[i].id != c[j].id
    requires forall k :: k in m ==> exists i :: 0 <= i < |c| && c[i].id == k
    ensures IsListing(Sort(c), m)
  {
    var pl := Sort(c);
    SameElements(pl, c);
    forall i | 0 <= i < |pl| ensures pl[i].id in m && pl[i].rule == m[pl[i].id].rule {
      assert pl[i] in c;
    }
    forall k | k in m ensures exists i :: 0 <= i < |pl| && pl[i].id == k {
      var j :| 0 <= j < |c| && c[j].id == k;
      assert c[j] in pl;
    }
  }

  /** Sequences with equal multisets have the same length and members. */
  lemma SameElements(a: seq<Pair>, b: seq<Pair>)
    requires multiset(a) == multiset(b)
    ensures |a| == |b|
    ensures forall x :: x in a <==> x in b
  {
    assert |a| == |multiset(a)|;
    assert |b| == |multiset(b)|;
    forall x ensures x in a <==> x in b {
      assert x in a <==> x in multiset(a);
      assert x in b <==> x in multiset(b);
    }
  }

  /** Two strictly sorted sequences with the same elements are equal. */
  lemma {:induction false} SortedUnique(s: seq<Pair>, t: seq<Pair>)
    requires StrictlySorted(s) && StrictlySorted(t)
    requires forall x :: x in s <==> x in t
    ensures s == t
    decreases |s|
  {
    if |s| == 0 {
      if |t| > 0 {
        HeadIn(t);
        assert false;
      }
    } else {
      assert s[0] in t && t[0] in s by {
        assert s[0] in s;
        assert |t| > 0;
        assert t[0] in t;
      }
      if s[0] != t[0] {
        assert false;
      }
      forall x ensures x in s[1..] <==> x in t[1..] {
        if x in s[1..] {
          var i :| 1 <= i < |s| && s[i] == x;
          assert Less(s[0], s[i]);
          assert x in t;
          var j :| 0 <= j < |t| && t[j] == x;
          assert j != 0;
          assert t[1..][j - 1] == x;
        }
        if x in t[1..] {
          var i :| 1 <= i < |t| && t[i] == x;
          assert Less(t[0], t[i]);
          assert x in s;
          var j :| 0 <= j < |s| && s[j] == x;
          assert j != 0;
          assert s[1..][j - 1] == x;
        }
      }
      SortedUnique(s[1..], t[1..]);
    }
  }

  lemma HeadIn(t: seq<Pair>)
    ensures |t| > 0 ==> t[0] in t
  {
  }

  /** The listing of a partition is unique, so every run of `SortOrders`
      (whatever the map iteration order) yields the same push sequence. */
  lemma ListingUnique(p: seq<Pair>, q: seq<Pair>, m: Partition)
    requires IsListing(p, m) && IsListing(q, m)
    ensures p == q
  {
    forall x ensures x in p <==> x in q {
      if x in p {
        var j :| 0 <= j < |q| && q[j].id == x.id;
      }
      if x in q {
        var j :| 0 <= j < |p| && p[j].id == x.id;
      }
    }
    SortedUnique(p, q);
  }
}
