/** Small sequence helpers shared by the rest of the model: an order-preserving
    filter and the "is a subsequence of" relation it establishes. */
module Seqs {

  /** `r` can be obtained from `s` by deleting elements, without reordering. */
  predicate IsSubseq<T(==)>(r: seq<T>, s: seq<T>)
  {
    if |r| == 0 then true
    else if |s| == 0 then false
    else if r[0] == s[0] then IsSubseq(r[1..], s[1..])
    else IsSubseq(r, s[1..])
  }

  /** Keeps, in their original order, the elements of `s` that satisfy `keep`. */
  function Filter<T(!new)>(s: seq<T>, keep: T -> bool): (r: seq<T>)
    ensures |r| <= |s|
  {
    if |s| == 0 then []
    else
      var rest := Filter(s[1..], keep);
      if keep(s[0]) then [s[0]] + rest else rest
  }

  /** What Filter keeps: exactly the elements satisfying `keep`, and all of
      `s` exactly when every element satisfies it. */
  lemma {:induction false} FilterMembers<T(!new)>(s: seq<T>, keep: T -> bool)
    ensures forall x :: x in Filter(s, keep) <==> x in s && keep(x)
    ensures |Filter(s, keep)| == |s| <==> forall i :: 0 <= i < |s| ==> keep(s[i])
    decreases |s|
  {
    if |s| > 0 {
      FilterMembers(s[1..], keep);
      assert forall x :: x in s <==> x == s[0] || x in s[1..];
      if forall i :: 0 <= i < |s[1..]| ==> keep(s[1..][i]) {
        forall i | 1 <= i < |s| ensures keep(s[i]) {
          assert s[i] == s[1..][i - 1];
        }
      }
    }
  }

  /** Filtering a sequence with one more element at the end. */
  lemma {:induction false} FilterSnoc<T(!new)>(s: seq<T>, x: T, keep: T -> bool)
    ensures Filter(s + [x], keep) == Filter(s, keep) + (if keep(x) then [x] else [])
    decreases |s|
  {
    if |s| > 0 {
      assert (s + [x])[1..] == s[1..] + [x];
      FilterSnoc(s[1..], x, keep);
    }
  }

  lemma {:induction false} FilterIsSubseq<T(!new)>(s: seq<T>, keep: T -> bool)
    ensures IsSubseq(Filter(s, keep), s)
  {
    if |s| > 0 {
      FilterIsSubseq(s[1..], keep);
      if !keep(s[0]) {
        SubseqDropHead(Filter(s[1..], keep), s);
      }
    }
  }

  /** Being a subsequence of the tail implies being a subsequence of the whole. */
  lemma {:induction false} SubseqDropHead<T>(r: seq<T>, s: seq<T>)
    requires |s| > 0 && IsSubseq(r, s[1..])
    ensures IsSubseq(r, s)
    decreases |s|, 0
  {
    if |r| > 0 && r[0] == s[0] {
      SubseqTail(r, s[1..]);
    }
  }

  /** Dropping the first element of a subsequence keeps it a subsequence. */
  lemma {:induction false} SubseqTail<T>(r: seq<T>, t: seq<T>)
    requires |r| > 0 && IsSubseq(r, t)
    ensures IsSubseq(r[1..], t)
    decreases |t|, 1
  {
    if r[0] == t[0] {
      SubseqDropHead(r[1..], t);
    } else {
      SubseqTail(r, t[1..]);
      SubseqDropHead(r[1..], t);
    }
  }

  /** Every element of a subsequence occurs in the original sequence. */
  lemma {:induction false} SubseqMembers<T>(r: seq<T>, s: seq<T>)
    requires IsSubseq(r, s)
    ensures forall x :: x in r ==> x in s
  {
    if |r| > 0 {
      assert |s| > 0;
      if r[0] == s[0] {
        SubseqMembers(r[1..], s[1..]);
        assert forall x :: x in r ==> x == r[0] || x in r[1..];
      } else {
        SubseqMembers(r, s[1..]);
      }
    }
  }
}
