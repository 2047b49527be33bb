/**
 * Sequence helpers shared by the schema model: duplicate-freedom, the
 * position of an element, an order-preserving filter, and Python's
 * `list.insert` / `del list[i]`.
 */
module Seqs {

  /** No element occurs twice. */
  ghost predicate Distinct<T>(s: seq<T>)
  {
    forall i, j :: 0 <= i < j < |s| ==> s[i] != s[j]
  }

  /** The first position of `x` in `s` (Python's `list.index`). */
  function Find<T(==)>(s: seq<T>, x: T): (k: nat)
    requires x in s
    ensures k < |s| && s[k] == x && x !in s[..k]
  {
    if s[0] == x then 0
    else
      var k := Find(s[1..], x);
      assert s[..k + 1] == [s[0]] + s[1..][..k];
      k + 1
  }

  lemma FindDistinct<T>(s: seq<T>, k: nat)
    requires Distinct(s) && k < |s|
    ensures Find(s, s[k]) == k
  {
    var j := Find(s, s[k]);
    forall i | 0 <= i < j ensures s[..j][i] == s[i] {}
  }

  /** The elements of `s` satisfying `p`, in their order in `s`. */
  function Filter<T>(s: seq<T>, p: T -> bool): (r: seq<T>)
    ensures |r| <= |s|
  {
    if s == [] then []
    else Filter(s[..|s| - 1], p) + (if p(s[|s| - 1]) then [s[|s| - 1]] else [])
  }

  /** The filtered sequence holds exactly the elements of `s` that pass `p`. */
  lemma {:induction false} FilterIn<T>(s: seq<T>, p: T -> bool)
    ensures forall i :: 0 <= i < |Filter(s, p)| ==> Filter(s, p)[i] in s && p(Filter(s, p)[i])
    ensures forall i :: 0 <= i < |s| && p(s[i]) ==> s[i] in Filter(s, p)
  {
    if s != [] {
      var init, last := s[..|s| - 1], s[|s| - 1];
      assert s == init + [last];
      FilterIn(init, p);
    }
  }

  /** One element is in the filtered sequence exactly when it is in `s` and passes `p`. */
  lemma {:induction false} FilterHas<T>(s: seq<T>, p: T -> bool, x: T)
    ensures x in Filter(s, p) <==> x in s && p(x)
  {
    if s != [] {
      var init, last := s[..|s| - 1], s[|s| - 1];
      assert s == init + [last];
      FilterHas(init, p, x);
    }
  }

  /** In a duplicate-free sequence an element occurs neither before nor after its position. */
  lemma DistinctSplit<T>(s: seq<T>, k: nat)
    requires Distinct(s) && k < |s|
    ensures s[k] !in s[..k] && s[k] !in s[k + 1..]
  {
    var pre, post := s[..k], s[k + 1..];
    forall i | 0 <= i < |pre| ensures pre[i] != s[k] {
      assert pre[i] == s[i];
    }
    forall i | 0 <= i < |post| ensures post[i] != s[k] {
      assert post[i] == s[k + 1 + i];
    }
  }

  /** Filtering commutes with concatenation: the order of `s` is kept. */
  lemma {:induction false} FilterAppend<T>(a: seq<T>, b: seq<T>, p: T -> bool)
    ensures Filter(a + b, p) == Filter(a, p) + Filter(b, p)
  {
    if b == [] {
      assert a + b == a;
    } else {
      var init := b[..|b| - 1];
      assert (a + b)[..|a + b| - 1] == a + init;
      FilterAppend(a, init, p);
    }
  }

  /** Filtering a sequence extended by one element. */
  lemma FilterSnoc<T>(s: seq<T>, x: T, p: T -> bool)
    ensures Filter(s + [x], p) == Filter(s, p) + (if p(x) then [x] else [])
  {
    assert (s + [x])[..|s|] == s;
  }

  /** Filtering by a test that holds for exactly one of two others gives the two filters' elements together. */
  lemma {:induction false} FilterSplit<T>(s: seq<T>, p: T -> bool, p0: T -> bool, q: T -> bool)
    requires forall x :: p(x) == (p0(x) || q(x)) && !(p0(x) && q(x))
    ensures multiset(Filter(s, p)) == multiset(Filter(s, p0)) + multiset(Filter(s, q))
  {
    if s != [] {
      var init, x := s[..|s| - 1], s[|s| - 1];
      assert s == init + [x];
      FilterSplit(init, p, p0, q);
      FilterSnoc(init, x, p);
      FilterSnoc(init, x, p0);
      FilterSnoc(init, x, q);
    }
  }

  /** Appending a new element keeps a sequence duplicate-free. */
  lemma DistinctSnoc<T>(s: seq<T>, x: T)
    requires Distinct(s) && x !in s
    ensures Distinct(s + [x])
  {
    forall i | 0 <= i < |s| ensures (s + [x])[i] != x {
      assert (s + [x])[i] == s[i];
    }
  }

  /** The parts of a duplicate-free sequence ending in `x`. */
  lemma DistinctUnsnoc<T>(s: seq<T>, x: T)
    requires Distinct(s + [x])
    ensures Distinct(s) && x !in s
  {
    forall i | 0 <= i < |s| ensures s[i] != x {
      assert s[i] == (s + [x])[i] && x == (s + [x])[|s|];
    }
    forall i, j | 0 <= i < j < |s| ensures s[i] != s[j] {
      assert s[i] == (s + [x])[i] && s[j] == (s + [x])[j];
    }
  }

  /** A filter that every element passes keeps the whole sequence. */
  lemma {:induction false} FilterAll<T>(s: seq<T>, p: T -> bool)
    requires forall i :: 0 <= i < |s| ==> p(s[i])
    ensures Filter(s, p) == s
  {
    if s != [] {
      var init := s[..|s| - 1];
      assert s == init + [s[|s| - 1]];
      FilterAll(init, p);
    }
  }

  /** A filter that no element passes keeps nothing. */
  lemma {:induction false} FilterNone<T>(s: seq<T>, p: T -> bool)
    requires forall i :: 0 <= i < |s| ==> !p(s[i])
    ensures Filter(s, p) == []
  {
    if s != [] {
      var init := s[..|s| - 1];
      assert s == init + [s[|s| - 1]];
      FilterNone(init, p);
    }
  }

  lemma {:induction false} FilterMultiset<T>(s: seq<T>, p: T -> bool)
    ensures multiset(Filter(s, p)) <= multiset(s)
  {
    if s != [] {
      var init := s[..|s| - 1];
      assert s == init + [s[|s| - 1]];
      FilterMultiset(init, p);
    }
  }

  lemma DistinctFilter<T>(s: seq<T>, p: T -> bool)
    requires Distinct(s)
    ensures Distinct(Filter(s, p))
  {
    var r := Filter(s, p);
    FilterMultiset(s, p);
    if !Distinct(r) {
      var i, j :| 0 <= i < j < |r| && r[i] == r[j];
      TwiceCounted(r, i, j);
      DistinctCount(s, r[i]);
    }
  }

  /** An element at two positions is counted at least twice. */
  lemma TwiceCounted<T>(s: seq<T>, i: nat, j: nat)
    requires i < j < |s| && s[i] == s[j]
    ensures multiset(s)[s[i]] >= 2
  {
    assert s == s[..j] + [s[j]] + s[j + 1..];
    assert s[i] in s[..j];
  }

  /** In a duplicate-free sequence every element is counted at most once. */
  lemma {:induction false} DistinctCount<T>(s: seq<T>, x: T)
    requires Distinct(s)
    ensures multiset(s)[x] <= 1
  {
    if s != [] {
      var init := s[..|s| - 1];
      assert s == init + [s[|s| - 1]];
      assert Distinct(init);
      DistinctCount(init, x);
      forall k | 0 <= k < |init| ensures init[k] != s[|s| - 1] {
        assert init[k] == s[k];
      }
    }
  }

  /** Duplicate-freedom is a property of the multiset of elements. */
  lemma PermutationDistinct<T>(s: seq<T>, t: seq<T>)
    requires Distinct(s) && multiset(s) == multiset(t)
    ensures Distinct(t)
  {
    if !Distinct(t) {
      var i, j :| 0 <= i < j < |t| && t[i] == t[j];
      TwiceCounted(t, i, j);
      DistinctCount(s, t[i]);
    }
  }

  /** `del s[i]` */
  function Delete<T>(s: seq<T>, i: nat): (r: seq<T>)
    requires i < |s|
    ensures |r| == |s| - 1
    ensures multiset(r) == multiset(s) - multiset{s[i]}
  {
    assert s == s[..i] + [s[i]] + s[i + 1..];
    s[..i] + s[i + 1..]
  }

  /** What is left after `del s[k]`: the elements before `k`, then the ones after it. */
  lemma DeleteAt<T>(s: seq<T>, k: nat)
    requires k < |s|
    ensures forall i :: 0 <= i < |s| - 1 ==> Delete(s, k)[i] == if i < k then s[i] else s[i + 1]
  {
    assert Delete(s, k) == s[..k] + s[k + 1..];
  }

  /** Deleting from a duplicate-free sequence removes exactly the deleted element. */
  lemma DistinctDelete<T>(s: seq<T>, k: nat)
    requires Distinct(s) && k < |s|
    ensures Distinct(Delete(s, k))
    ensures forall x :: x in Delete(s, k) <==> x in s && x != s[k]
  {
    var r := Delete(s, k);
    DeleteAt(s, k);
    forall i, j | 0 <= i < j < |r| ensures r[i] != r[j] {
      var i', j' := if i < k then i else i + 1, if j < k then j else j + 1;
      assert r[i] == s[i'] && r[j] == s[j'];
    }
    forall x ensures x in r <==> x in s && x != s[k] {
      if x in r {
        var i :| 0 <= i < |r| && r[i] == x;
        var i' := if i < k then i else i + 1;
        assert s[i'] == x && i' != k;
      }
      if x in s && x != s[k] {
        var j :| 0 <= j < |s| && s[j] == x;
        assert r[if j < k then j else j - 1] == x;
      }
    }
  }

  /** `s.insert(i, x)` for `i >= 0`: an index past the end appends. */
  function Insert<T>(s: seq<T>, i: nat, x: T): (r: seq<T>)
    ensures |r| == |s| + 1
    ensures multiset(r) == multiset(s) + multiset{x}
  {
    if i >= |s| then s + [x]
    else
      assert s == s[..i] + s[i..];
      s[..i] + [x] + s[i..]
  }

  /** The elements of `s` without repetitions, in the order of their first appearance. */
  function Dedup<T(==)>(s: seq<T>): (r: seq<T>)
    ensures Distinct(r)
  {
    if s == [] then []
    else
      var r := Dedup(s[..|s| - 1]);
      if s[|s| - 1] in r then r else r + [s[|s| - 1]]
  }

  /** `Dedup` keeps exactly the elements of `s`. */
  lemma {:induction false} DedupIn<T>(s: seq<T>)
    ensures forall i :: 0 <= i < |Dedup(s)| ==> Dedup(s)[i] in s
    ensures forall i :: 0 <= i < |s| ==> s[i] in Dedup(s)
  {
    if s != [] {
      var init, last := s[..|s| - 1], s[|s| - 1];
      assert s == init + [last];
      DedupIn(init);
    }
  }

  /** `Dedup` lists elements in the order in which they first appear. */
  lemma {:induction false} DedupOrder<T>(s: seq<T>)
    ensures forall i :: 0 <= i < |Dedup(s)| ==> Dedup(s)[i] in s
    ensures forall i, j :: 0 <= i < j < |Dedup(s)| ==> Find(s, Dedup(s)[i]) < Find(s, Dedup(s)[j])
  {
    DedupIn(s);
    if s != [] {
      var init, last := s[..|s| - 1], s[|s| - 1];
      assert s == init + [last];
      DedupOrder(init);
      var r0, r := Dedup(init), Dedup(s);
      assert r[..|r0|] == r0;
      forall i, j | 0 <= i < j < |r| ensures Find(s, r[i]) < Find(s, r[j]) {
        assert r[i] == r0[i];
        FindPrefix(init, [last], r[i]);
        if j < |r0| {
          assert r[j] == r0[j];
          FindPrefix(init, [last], r[j]);
        } else {
          DedupIn(init);
          FindUnique(s, last, |init|);
        }
      }
    }
  }

  lemma FindPrefix<T>(a: seq<T>, b: seq<T>, x: T)
    requires x in a
    ensures Find(a + b, x) == Find(a, x)
  {
    var k := Find(a, x);
    assert (a + b)[..k] == a[..k];
    FindUnique(a + b, x, k);
  }

  /** `Find` is the only position holding `x` with no `x` before it. */
  lemma FindUnique<T>(s: seq<T>, x: T, k: nat)
    requires k < |s| && s[k] == x && x !in s[..k]
    ensures Find(s, x) == k
  {
    var j := Find(s, x);
    forall i | 0 <= i < k ensures s[i] != x {
      assert s[..k][i] == s[i];
    }
    forall i | 0 <= i < j ensures s[i] != x {
      assert s[..j][i] == s[i];
    }
  }

  /** Appending a run of one new value adds that value to the end of `Dedup`. */
  lemma {:induction false} DedupAppendRun<T>(a: seq<T>, b: seq<T>, t: T)
    requires |b| > 0 && t !in a
    requires forall i :: 0 <= i < |b| ==> b[i] == t
    ensures Dedup(a + b) == Dedup(a) + [t]
  {
    var init := b[..|b| - 1];
    assert (a + b)[..|a + b| - 1] == a + init;
    if init == [] {
      assert a + init == a;
      DedupIn(a);
      assert t !in Dedup(a);
    } else {
      DedupAppendRun(a, init, t);
    }
  }

  /** A filter of a duplicate-free sequence keeps the relative order of its elements. */
  lemma {:induction false} FilterOrdered<T>(s: seq<T>, p: T -> bool)
    requires Distinct(s)
    ensures forall i :: 0 <= i < |Filter(s, p)| ==> Filter(s, p)[i] in s
    ensures forall i, j :: 0 <= i < j < |Filter(s, p)| ==> Find(s, Filter(s, p)[i]) < Find(s, Filter(s, p)[j])
  {
    FilterIn(s, p);
    if s != [] {
      var init, last := s[..|s| - 1], s[|s| - 1];
      assert s == init + [last];
      assert Distinct(init);
      FilterOrdered(init, p);
      var r0 := Filter(init, p);
      forall x | x in init ensures Find(s, x) == Find(init, x) {
        FindPrefix(init, [last], x);
      }
      forall k | 0 <= k < |init| ensures s[k] != last {
        assert s[k] == init[k];
      }
      assert Find(s, last) == |init|;
    }
  }

  /** Filtering a prefix gives a prefix of the filtered sequence. */
  lemma {:induction false} FilterPrefix<T>(s: seq<T>, j: nat, p: T -> bool)
    requires j <= |s|
    ensures Filter(s[..j], p) <= Filter(s, p)
    decreases |s|
  {
    if j == |s| {
      assert s[..j] == s;
    } else {
      var init := s[..|s| - 1];
      assert init[..j] == s[..j];
      FilterPrefix(init, j, p);
    }
  }

  /** Filtering one element more of `s` adds it if it passes. */
  lemma FilterTake<T>(s: seq<T>, j: nat, p: T -> bool)
    requires j < |s|
    ensures Filter(s[..j + 1], p) == Filter(s[..j], p) + (if p(s[j]) then [s[j]] else [])
  {
    var t := s[..j + 1];
    assert t[..|t| - 1] == s[..j];
    assert t[|t| - 1] == s[j];
  }

  /** The step of a loop that filters `s`: keeping `s[i]` exactly when it passes extends the filtered prefix. */
  lemma FilterKeep<T>(s: seq<T>, i: nat, p: T -> bool, cur: seq<T>, keep: bool)
    requires i < |s| && cur == Filter(s[..i], p) && keep == p(s[i])
    ensures (if keep then cur + [s[i]] else cur) == Filter(s[..i + 1], p)
  {
    FilterTake(s, i, p);
  }

  /** Filtering one element more of `s` adds it if it passes, and stays a prefix of filtering all of `s`. */
  lemma FilterStep<T>(s: seq<T>, j: nat, p: T -> bool)
    requires j < |s|
    ensures Filter(s[..j + 1], p) == Filter(s[..j], p) + (if p(s[j]) then [s[j]] else [])
    ensures Filter(s[..j + 1], p) <= Filter(s, p)
  {
    FilterTake(s, j, p);
    FilterPrefix(s, j + 1, p);
  }

  /** The test `m != n`, as a function value. */
  function Other<T(==)>(n: T): T -> bool
  {
    m => m != n
  }

  /** With distinct elements, dropping one value is dropping its position. */
  lemma {:induction false} FilterOtherDistinct<T>(ns: seq<T>, k: nat)
    requires Distinct(ns) && k < |ns|
    ensures Filter(ns, Other(ns[k])) == ns[..k] + ns[k + 1..]
  {
    var x, init, last := ns[k], ns[..|ns| - 1], ns[|ns| - 1];
    assert Filter(ns, Other(x)) == Filter(init, Other(x)) + (if last != x then [last] else []);
    DistinctSplit(ns, k);
    if k == |ns| - 1 {
      FilterOtherAbsent(init, x);
    } else {
      assert Distinct(init);
      assert init[k] == x;
      FilterOtherDistinct(init, k);
      assert ns[k + 1..] == init[k + 1..] + [last];
    }
  }

  lemma {:induction false} FilterOtherAbsent<T>(s: seq<T>, n: T)
    requires n !in s
    ensures Filter(s, Other(n)) == s
  {
    if s != [] {
      var init := s[..|s| - 1];
      assert s == init + [s[|s| - 1]];
      FilterOtherAbsent(init, n);
    }
  }
}
