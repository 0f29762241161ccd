/** Filtering and flattening of sequences, the Dafny counterparts of the
    iterator chains (`filter`, `collect`, `extend`) the generator uses. */
module Seqs {

  /** `s.iter().filter(p).collect()`: the elements that satisfy `p`, in order. */
  function Filter<T(!new)>(p: T -> bool, s: seq<T>): (r: seq<T>)
    ensures |r| <= |s|
    ensures forall x :: x in r <==> x in s && p(x)
    ensures forall k :: 0 <= k < |r| ==> p(r[k])
    decreases |s|
  {
    if s == [] then []
    else Filter(p, s[..|s| - 1]) + (if p(s[|s| - 1]) then [s[|s| - 1]] else [])
  }

  lemma {:induction false} FilterAppend<T(!new)>(p: T -> bool, a: seq<T>, b: seq<T>)
    ensures Filter(p, a + b) == Filter(p, a) + Filter(p, b)
    decreases |b|
  {
    if b == [] {
      assert a + b == a;
    } else {
      assert (a + b)[..|a + b| - 1] == a + b[..|b| - 1];
      FilterAppend(p, a, b[..|b| - 1]);
    }
  }

  /** Filtering keeps every satisfying element as often as it occurs and
      drops every other. */
  lemma {:induction false} FilterCount<T(!new)>(p: T -> bool, s: seq<T>)
    ensures forall x :: multiset(Filter(p, s))[x] == if p(x) then multiset(s)[x] else 0
    decreases |s|
  {
    if s != [] {
      var init, last := s[..|s| - 1], s[|s| - 1];
      FilterCount(p, init);
      assert s == init + [last];
      assert multiset(s) == multiset(init) + multiset{last};
    }
  }

  /** The positions of the elements that satisfy `p`, in increasing order. */
  function FilterIndices<T(!new)>(p: T -> bool, s: seq<T>): (idx: seq<nat>)
    ensures forall k :: 0 <= k < |idx| ==> idx[k] < |s|
    decreases |s|
  {
    if s == [] then []
    else FilterIndices(p, s[..|s| - 1]) + (if p(s[|s| - 1]) then [|s| - 1] else [])
  }

  /** The `k`-th filtered element sits at position `FilterIndices(p, s)[k]`. */
  lemma {:induction false} FilterIndicesAt<T(!new)>(p: T -> bool, s: seq<T>)
    ensures var idx := FilterIndices(p, s);
      |idx| == |Filter(p, s)| && forall k :: 0 <= k < |idx| ==> Filter(p, s)[k] == s[idx[k]]
    decreases |s|
  {
    if s != [] {
      var init, last := s[..|s| - 1], s[|s| - 1];
      FilterIndicesAt(p, init);
      var front, f := FilterIndices(p, init), Filter(p, init);
      var idx, r := FilterIndices(p, s), Filter(p, s);
      assert idx == front + (if p(last) then [|s| - 1] else []);
      assert r == f + (if p(last) then [last] else []);
      forall k | 0 <= k < |idx|
        ensures r[k] == s[idx[k]]
      {
        if k < |front| {
          assert idx[k] == front[k] && r[k] == f[k] && s[front[k]] == init[front[k]];
        }
      }
    }
  }

  /** The positions increase. */
  lemma {:induction false} FilterIndicesIncreasing<T(!new)>(p: T -> bool, s: seq<T>)
    ensures forall k, l :: 0 <= k < l < |FilterIndices(p, s)| ==> FilterIndices(p, s)[k] < FilterIndices(p, s)[l]
    decreases |s|
  {
    if s != [] {
      var init := s[..|s| - 1];
      FilterIndicesIncreasing(p, init);
      var front, idx := FilterIndices(p, init), FilterIndices(p, s);
      assert idx == front + (if p(s[|s| - 1]) then [|s| - 1] else []);
      forall k, l | 0 <= k < l < |idx|
        ensures idx[k] < idx[l]
      {
        assert idx[k] == front[k] < |init|;
        if l < |front| {
          assert idx[l] == front[l] && front[k] < front[l];
        } else {
          assert idx[l] == |s| - 1 == |init|;
        }
      }
    }
  }

  /** Every position whose element satisfies `p` is listed. */
  lemma {:induction false} FilterIndicesComplete<T(!new)>(p: T -> bool, s: seq<T>)
    ensures forall j :: 0 <= j < |s| && p(s[j]) ==> j in FilterIndices(p, s)
    decreases |s|
  {
    if s != [] {
      var init := s[..|s| - 1];
      FilterIndicesComplete(p, init);
      var front, idx := FilterIndices(p, init), FilterIndices(p, s);
      assert idx == front + (if p(s[|s| - 1]) then [|s| - 1] else []);
      forall j | 0 <= j < |s| - 1 && p(s[j])
        ensures j in idx
      {
        assert init[j] == s[j];
      }
    }
  }

  /** Filtering gives nothing exactly when no element satisfies the predicate. */
  lemma FilterEmpty<T(!new)>(p: T -> bool, s: seq<T>)
    ensures Filter(p, s) == [] <==> forall k :: 0 <= k < |s| ==> !p(s[k])
  {
    if Filter(p, s) != [] {
      assert Filter(p, s)[0] in Filter(p, s);
    }
  }

  /** Filtering keeps a sequence whose elements all satisfy the predicate. */
  lemma {:induction false} FilterAllKept<T(!new)>(p: T -> bool, s: seq<T>)
    requires forall k :: 0 <= k < |s| ==> p(s[k])
    ensures Filter(p, s) == s
    decreases |s|
  {
    if s != [] {
      FilterAllKept(p, s[..|s| - 1]);
    }
  }

  /** Filtering twice with the same predicate filters once. */
  lemma {:induction false} FilterIdempotent<T(!new)>(p: T -> bool, s: seq<T>)
    ensures Filter(p, Filter(p, s)) == Filter(p, s)
    decreases |s|
  {
    if s != [] {
      var last := s[|s| - 1];
      FilterIdempotent(p, s[..|s| - 1]);
      FilterAppend(p, Filter(p, s[..|s| - 1]), if p(last) then [last] else []);
      if p(last) {
        assert Filter(p, [last]) == Filter(p, []) + [last] by {
          assert [last][..0] == [];
        }
      }
    }
  }

  /** `a` can be obtained from `b` by deleting elements. */
  ghost predicate IsSubsequence<T>(a: seq<T>, b: seq<T>)
    decreases |b|
  {
    if a == [] then true
    else if b == [] then false
    else if a[|a| - 1] == b[|b| - 1] then IsSubsequence(a[..|a| - 1], b[..|b| - 1])
    else IsSubsequence(a, b[..|b| - 1])
  }

  lemma {:induction false} FilterIsSubsequence<T(!new)>(p: T -> bool, s: seq<T>)
    ensures IsSubsequence(Filter(p, s), s)
    decreases |s|
  {
    if s != [] {
      var init, last := s[..|s| - 1], s[|s| - 1];
      var f := Filter(p, init);
      FilterIsSubsequence(p, init);
      assert s == init + [last];
      if p(last) {
        var a := f + [last];
        assert Filter(p, s) == a;
        assert a[..|a| - 1] == f && a[|a| - 1] == s[|s| - 1];
      } else {
        assert Filter(p, s) == f;
        SubsequenceExtend(f, init, last);
      }
    }
  }

  lemma {:induction false} SubsequenceExtend<T>(a: seq<T>, b: seq<T>, x: T)
    requires IsSubsequence(a, b)
    ensures IsSubsequence(a, b + [x])
    decreases |b|, 1
  {
    assert (b + [x])[..|b|] == b;
    if a != [] && a[|a| - 1] == x {
      SubsequenceDropLast(a, b);
    }
  }

  lemma {:induction false} SubsequenceDropLast<T>(a: seq<T>, b: seq<T>)
    requires a != [] && IsSubsequence(a, b)
    ensures IsSubsequence(a[..|a| - 1], b)
    decreases |b|, 0
  {
    var a', b' := a[..|a| - 1], b[..|b| - 1];
    assert b == b' + [b[|b| - 1]];
    if a[|a| - 1] != b[|b| - 1] {
      SubsequenceDropLast(a, b');
    }
    SubsequenceExtend(a', b', b[|b| - 1]);
  }

  /** `concat()`: the sequences one after the other. */
  function Flatten<T>(ss: seq<seq<T>>): seq<T>
    decreases |ss|
  {
    if ss == [] then [] else Flatten(ss[..|ss| - 1]) + ss[|ss| - 1]
  }

  lemma {:induction false} FlattenAppend<T>(a: seq<seq<T>>, b: seq<seq<T>>)
    ensures Flatten(a + b) == Flatten(a) + Flatten(b)
    decreases |b|
  {
    if b == [] {
      assert a + b == a;
    } else {
      var init, last := b[..|b| - 1], b[|b| - 1];
      assert (a + b)[..|a + b| - 1] == a + init;
      assert (a + b)[|a + b| - 1] == last;
      assert Flatten(a + b) == Flatten(a + init) + last;
      FlattenAppend(a, init);
      assert Flatten(b) == Flatten(init) + last;
      assert (Flatten(a) + Flatten(init)) + last == Flatten(a) + (Flatten(init) + last);
    }
  }
}
