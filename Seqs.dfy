/**
 * The array operations the reports are built from: `filter`, a `reduce` that
 * adds up one number per element, and `sort` with a comparator. `sort` is
 * modelled as a stable insertion sort (ECMAScript requires `Array.prototype.sort`
 * to be stable).
 */
module Seqs {

  /** `s.filter(p)`. */
  function Filter<T>(s: seq<T>, p: T -> bool): (r: seq<T>)
    ensures |r| <= |s|
    ensures forall i :: 0 <= i < |r| ==> r[i] in s && p(r[i])
    ensures forall i :: 0 <= i < |s| && p(s[i]) ==> s[i] in r
  {
    if s == [] then [] else (if p(s[0]) then [s[0]] else []) + Filter(s[1..], p)
  }

  function Not<T>(p: T -> bool): T -> bool {
    x => !p(x)
  }

  /** Filtering distributes over concatenation: the kept elements stay in input order. */
  lemma {:induction false} FilterAppend<T>(a: seq<T>, b: seq<T>, p: T -> bool)
    ensures Filter(a + b, p) == Filter(a, p) + Filter(b, p)
  {
    if a == [] {
      assert a + b == b;
    } else {
      assert (a + b)[0] == a[0];
      assert (a + b)[1..] == a[1..] + b;
      FilterAppend(a[1..], b, p);
    }
  }

  /** Every element is kept by `p` or by its negation, never by both. */
  lemma {:induction false} FilterPartitionLength<T>(s: seq<T>, p: T -> bool)
    ensures |Filter(s, p)| + |Filter(s, Not(p))| == |s|
  {
    if s != [] {
      FilterPartitionLength(s[1..], p);
    }
  }

  /** Two tests that agree on every element keep the same elements. */
  lemma {:induction false} FilterAgree<T>(s: seq<T>, p: T -> bool, q: T -> bool)
    requires forall i :: 0 <= i < |s| ==> p(s[i]) == q(s[i])
    ensures Filter(s, p) == Filter(s, q)
  {
    if s != [] {
      assert forall i :: 0 <= i < |s[1..]| ==> s[1..][i] == s[i + 1];
      FilterAgree(s[1..], p, q);
    }
  }

  /** Filtering a list without repeats leaves a list without repeats. */
  lemma {:induction false} FilterDistinct<T>(s: seq<T>, p: T -> bool)
    requires Distinct(s)
    ensures Distinct(Filter(s, p))
  {
    if s != [] {
      var t := s[1..];
      assert forall i, j :: 0 <= i < j < |t| ==> t[i] == s[i + 1] && t[j] == s[j + 1];
      FilterDistinct(t, p);
      var r := Filter(t, p);
      forall i | 0 <= i < |r|
        ensures r[i] != s[0]
      {
        var k :| 0 <= k < |t| && t[k] == r[i];
        assert t[k] == s[k + 1];
      }
    }
  }

  /** `s.reduce((acc, x) => acc + f(x), 0)`, adding from the left. */
  function SumBy<T>(s: seq<T>, f: T -> real): real {
    if s == [] then 0.0 else SumBy(s[..|s| - 1], f) + f(s[|s| - 1])
  }

  lemma {:induction false} SumByAppend<T>(a: seq<T>, b: seq<T>, f: T -> real)
    ensures SumBy(a + b, f) == SumBy(a, f) + SumBy(b, f)
    decreases |b|
  {
    if b == [] {
      assert a + b == a;
    } else {
      assert (a + b)[..|a + b| - 1] == a + b[..|b| - 1];
      assert (a + b)[|a + b| - 1] == b[|b| - 1];
      SumByAppend(a, b[..|b| - 1], f);
    }
  }

  /** The sum of a prefix one longer adds the next element. */
  lemma PrefixSumStep<T>(s: seq<T>, i: nat, f: T -> real)
    requires i < |s|
    ensures SumBy(s[..i + 1], f) == SumBy(s[..i], f) + f(s[i])
  {
    assert s[..i + 1][..i] == s[..i];
  }

  lemma SumByCons<T>(x: T, s: seq<T>, f: T -> real)
    ensures SumBy([x] + s, f) == f(x) + SumBy(s, f)
  {
    SumByAppend([x], s, f);
    assert [x][..0] == [];
  }

  /** The elements `p` keeps and those it drops add up to the whole sum. */
  lemma {:induction false} SumByPartition<T>(s: seq<T>, p: T -> bool, f: T -> real)
    ensures SumBy(Filter(s, p), f) + SumBy(Filter(s, Not(p)), f) == SumBy(s, f)
  {
    if s != [] {
      var init, x := s[..|s| - 1], s[|s| - 1];
      assert s == init + [x];
      SumByPartition(init, p, f);
      FilterAppend(init, [x], p);
      FilterAppend(init, [x], Not(p));
      SumByAppend(Filter(init, p), Filter([x], p), f);
      SumByAppend(Filter(init, Not(p)), Filter([x], Not(p)), f);
      SumByAppend(init, [x], f);
      SumByCons(x, [], f);
      assert Filter([x], p) == (if p(x) then [x] else []);
      assert Filter([x], Not(p)) == (if p(x) then [] else [x]);
    }
  }

  /** Elements worth nothing do not change a sum: dropping them keeps it. */
  lemma {:induction false} SumByDropZeros<T>(s: seq<T>, p: T -> bool, f: T -> real)
    requires forall x :: x in s && !p(x) ==> f(x) == 0.0
    ensures SumBy(Filter(s, p), f) == SumBy(s, f)
  {
    SumByPartition(s, p, f);
    SumByZero(Filter(s, Not(p)), f);
  }

  lemma {:induction false} SumByZero<T>(s: seq<T>, f: T -> real)
    requires forall x :: x in s ==> f(x) == 0.0
    ensures SumBy(s, f) == 0.0
  {
    if s != [] {
      SumByZero(s[..|s| - 1], f);
    }
  }

  /** A constant factor comes out of a sum. */
  lemma {:induction false} SumByScale<T>(s: seq<T>, f: T -> real, g: T -> real, c: real)
    requires forall x :: x in s ==> g(x) == c * f(x)
    ensures SumBy(s, g) == c * SumBy(s, f)
  {
    if s != [] {
      SumByScale(s[..|s| - 1], f, g, c);
    }
  }

  /** Two selectors that agree on every element give the same sum. */
  lemma {:induction false} SumByCongruent<T>(s: seq<T>, f: T -> real, g: T -> real)
    requires forall x :: x in s ==> f(x) == g(x)
    ensures SumBy(s, f) == SumBy(s, g)
  {
    if s != [] {
      SumByCongruent(s[..|s| - 1], f, g);
    }
  }

  // ---------------------------------------------------------------- sorting

  /** `le` is a comparator `sort` can work with: total and transitive. */
  ghost predicate IsTotalPreorder<T(!new)>(le: (T, T) -> bool) {
    && (forall a, b :: le(a, b) || le(b, a))
    && (forall a, b, c :: le(a, b) && le(b, c) ==> le(a, c))
  }

  predicate SortedBy<T>(s: seq<T>, le: (T, T) -> bool) {
    forall i, j :: 0 <= i < j < |s| ==> le(s[i], s[j])
  }

  /** `x` placed after every leading element not above it. */
  function Insert<T>(x: T, s: seq<T>, le: (T, T) -> bool): (r: seq<T>)
    ensures multiset(r) == multiset(s) + multiset{x}
    ensures |r| == |s| + 1
  {
    if s == [] || !le(s[0], x) then [x] + s
    else
      assert s == [s[0]] + s[1..];
      [s[0]] + Insert(x, s[1..], le)
  }

  /** `[...s].sort(cmp)` with `le(a, b)` meaning `cmp(a, b) <= 0`. */
  function SortBy<T>(s: seq<T>, le: (T, T) -> bool): (r: seq<T>)
    ensures multiset(r) == multiset(s)
    ensures |r| == |s|
  {
    if s == [] then []
    else
      assert s == s[..|s| - 1] + [s[|s| - 1]];
      Insert(s[|s| - 1], SortBy(s[..|s| - 1], le), le)
  }

  lemma {:induction false} InsertSorted<T(!new)>(x: T, s: seq<T>, le: (T, T) -> bool)
    requires IsTotalPreorder(le) && SortedBy(s, le)
    ensures SortedBy(Insert(x, s, le), le)
  {
    if s != [] && le(s[0], x) {
      InsertSorted(x, s[1..], le);
      InsertAbove(x, s, le);
      ConsSorted(s[0], Insert(x, s[1..], le), le);
    } else {
      assert s != [] ==> le(x, s[0]);
      ConsSorted(x, s, le);
    }
  }

  /** Everything `Insert` places after the head `s[0]` is at least `s[0]`. */
  lemma InsertAbove<T(!new)>(x: T, s: seq<T>, le: (T, T) -> bool)
    requires IsTotalPreorder(le) && SortedBy(s, le) && s != [] && le(s[0], x)
    ensures forall y :: y in Insert(x, s[1..], le) ==> le(s[0], y)
  {
    var r := Insert(x, s[1..], le);
    forall y | y in r
      ensures le(s[0], y)
    {
      assert y in multiset(r);
      if y != x {
        assert y in multiset(s[1..]);
        var j :| 0 <= j < |s[1..]| && s[1..][j] == y;
        assert s[j + 1] == y;
      }
    }
  }

  /** A sorted sequence stays sorted behind a head no larger than its first element. */
  lemma ConsSorted<T(!new)>(h: T, r: seq<T>, le: (T, T) -> bool)
    requires IsTotalPreorder(le) && SortedBy(r, le)
    requires forall y :: y in r ==> le(h, y)
    ensures SortedBy([h] + r, le)
  {
    var out := [h] + r;
    forall i, j | 0 <= i < j < |out|
      ensures le(out[i], out[j])
    {
      if i == 0 {
        assert out[j] == r[j - 1];
      } else {
        assert out[i] == r[i - 1] && out[j] == r[j - 1];
      }
    }
  }

  /** With a total, transitive comparator the output is sorted. */
  lemma {:induction false} SortBySorted<T(!new)>(s: seq<T>, le: (T, T) -> bool)
    requires IsTotalPreorder(le)
    ensures SortedBy(SortBy(s, le), le)
  {
    if s != [] {
      SortBySorted(s[..|s| - 1], le);
      InsertSorted(s[|s| - 1], SortBy(s[..|s| - 1], le), le);
    }
  }

  /** An element no smaller than any of `s` goes last. */
  lemma {:induction false} InsertAtEnd<T>(x: T, s: seq<T>, le: (T, T) -> bool)
    requires forall i :: 0 <= i < |s| ==> le(s[i], x)
    ensures Insert(x, s, le) == s + [x]
  {
    if s != [] {
      assert le(s[0], x);
      InsertAtEnd(x, s[1..], le);
      assert s == [s[0]] + s[1..];
    }
  }

  /** Sorting input that is already in order changes nothing. */
  lemma {:induction false} SortByIdentity<T>(s: seq<T>, le: (T, T) -> bool)
    requires SortedBy(s, le)
    ensures SortBy(s, le) == s
  {
    if s != [] {
      var n := |s| - 1;
      assert SortedBy(s[..n], le);
      SortByIdentity(s[..n], le);
      InsertAtEnd(s[n], s[..n], le);
      assert s[..n] + [s[n]] == s;
    }
  }

  lemma {:induction false} InsertSum<T>(x: T, s: seq<T>, le: (T, T) -> bool, f: T -> real)
    ensures SumBy(Insert(x, s, le), f) == SumBy(s, f) + f(x)
  {
    if s == [] || !le(s[0], x) {
      SumByCons(x, s, f);
    } else {
      InsertSum(x, s[1..], le, f);
      SumByCons(s[0], Insert(x, s[1..], le), f);
      SumByCons(s[0], s[1..], f);
      assert s == [s[0]] + s[1..];
    }
  }

  /** Sorting reorders and never changes a total. */
  lemma {:induction false} SortBySum<T>(s: seq<T>, le: (T, T) -> bool, f: T -> real)
    ensures SumBy(SortBy(s, le), f) == SumBy(s, f)
  {
    if s != [] {
      SortBySum(s[..|s| - 1], le, f);
      InsertSum(s[|s| - 1], SortBy(s[..|s| - 1], le), le, f);
    }
  }

  // --------------------------------------------------------------- grouping

  predicate Distinct<K(==)>(s: seq<K>) {
    forall i, j :: 0 <= i < j < |s| ==> s[i] != s[j]
  }

  /** The keys of `s` in order of first occurrence: the key order of a `Map` filled from `s`. */
  function Dedup<K(==)>(s: seq<K>): (r: seq<K>)
    ensures Distinct(r)
    ensures forall i :: 0 <= i < |s| ==> s[i] in r
    ensures forall i :: 0 <= i < |r| ==> r[i] in s
  {
    if s == [] then []
    else
      var init := s[..|s| - 1];
      var d := Dedup(init);
      assert forall i :: 0 <= i < |init| ==> init[i] == s[i];
      if s[|s| - 1] in d then d else d + [s[|s| - 1]]
  }

  /** `s.map(g)`. */
  function MapSeq<T, U>(s: seq<T>, g: T -> U): (r: seq<U>)
    ensures |r| == |s|
    ensures forall i :: 0 <= i < |s| ==> r[i] == g(s[i])
  {
    seq(|s|, i requires 0 <= i < |s| => g(s[i]))
  }

  /** The elements whose key is `k`. */
  function KeyIs<T, K(==)>(key: T -> K, k: K): T -> bool {
    x => key(x) == k
  }

  /** For each key, the sum of `f` over the elements with that key. */
  function GroupSum<T, K(==)>(s: seq<T>, key: T -> K, f: T -> real): K -> real {
    k => SumBy(Filter(s, KeyIs(key, k)), f)
  }

  /** Raising one value of a sum over distinct keys raises the sum by as much. */
  lemma {:induction false} SumByBump<K>(keys: seq<K>, g: K -> real, h: K -> real, k0: K, c: real)
    requires Distinct(keys) && k0 in keys
    requires forall i :: 0 <= i < |keys| ==> h(keys[i]) == g(keys[i]) + (if keys[i] == k0 then c else 0.0)
    ensures SumBy(keys, h) == SumBy(keys, g) + c
  {
    var init, last := keys[..|keys| - 1], keys[|keys| - 1];
    assert forall i :: 0 <= i < |init| ==> init[i] == keys[i];
    if last == k0 {
      forall x | x in init
        ensures g(x) == h(x)
      {
        var i :| 0 <= i < |init| && init[i] == x;
        assert keys[i] != keys[|keys| - 1];
      }
      SumByCongruent(init, g, h);
    } else {
      assert k0 in init by {
        var i :| 0 <= i < |keys| && keys[i] == k0;
        assert i < |keys| - 1;
        assert init[i] == k0;
      }
      SumByBump(init, g, h, k0, c);
    }
  }

  /**
   * Grouping loses nothing and counts nothing twice: over distinct keys that
   * cover every element, the group sums add up to the whole sum.
   */
  lemma {:induction false} SumByGroups<T, K>(s: seq<T>, key: T -> K, keys: seq<K>, f: T -> real)
    requires Distinct(keys)
    requires forall i :: 0 <= i < |s| ==> key(s[i]) in keys
    ensures SumBy(keys, GroupSum(s, key, f)) == SumBy(s, f)
  {
    if s == [] {
      SumByZero(keys, GroupSum(s, key, f));
    } else {
      var init, x := s[..|s| - 1], s[|s| - 1];
      assert s == init + [x];
      assert forall i :: 0 <= i < |init| ==> init[i] == s[i];
      SumByGroups(init, key, keys, f);
      forall i | 0 <= i < |keys|
        ensures GroupSum(s, key, f)(keys[i]) == GroupSum(init, key, f)(keys[i]) + (if keys[i] == key(x) then f(x) else 0.0)
      {
        var p := KeyIs(key, keys[i]);
        FilterAppend(init, [x], p);
        SumByAppend(Filter(init, p), Filter([x], p), f);
        assert Filter([x], p) == (if p(x) then [x] else []);
        SumByCons(x, [], f);
      }
      SumByBump(keys, GroupSum(init, key, f), GroupSum(s, key, f), key(x), f(x));
    }
  }

  /** Summing `f` only where `p` holds and 0 elsewhere is summing `f` over what `p` keeps. */
  /** `f` on the elements whose key is `k`, 0 on the others. */
  function Masked<T, K(==)>(key: T -> K, k: K, f: T -> real): T -> real {
    x => if key(x) == k then f(x) else 0.0
  }

  lemma SumByMasked<T>(s: seq<T>, p: T -> bool, f: T -> real, masked: T -> real)
    requires forall x :: x in s ==> masked(x) == (if p(x) then f(x) else 0.0)
    ensures SumBy(s, masked) == SumBy(Filter(s, p), f)
  {
    SumByDropZeros(s, p, masked);
    forall x | x in Filter(s, p)
      ensures masked(x) == f(x)
    {
      var i :| 0 <= i < |Filter(s, p)| && Filter(s, p)[i] == x;
    }
    SumByCongruent(Filter(s, p), masked, f);
  }

  /** Two equally long sequences whose elements are worth the same pairwise have the same sum. */
  lemma {:induction false} SumByPointwise<A, B>(a: seq<A>, f: A -> real, b: seq<B>, g: B -> real)
    requires |a| == |b|
    requires forall i :: 0 <= i < |a| ==> f(a[i]) == g(b[i])
    ensures SumBy(a, f) == SumBy(b, g)
  {
    if a != [] {
      var n := |a| - 1;
      assert forall i :: 0 <= i < n ==> a[..n][i] == a[i] && b[..n][i] == b[i];
      SumByPointwise(a[..n], f, b[..n], g);
    }
  }

  /** One more element of a loop's prefix: what `filter` and the running sum gain. */
  lemma FilterStep<T>(s: seq<T>, i: nat, p: T -> bool, f: T -> real)
    requires i < |s|
    ensures Filter(s[..i + 1], p) == Filter(s[..i], p) + (if p(s[i]) then [s[i]] else [])
    ensures SumBy(Filter(s[..i + 1], p), f) == SumBy(Filter(s[..i], p), f) + (if p(s[i]) then f(s[i]) else 0.0)
  {
    assert s[..i + 1] == s[..i] + [s[i]];
    FilterAppend(s[..i], [s[i]], p);
    assert Filter([s[i]], p) == (if p(s[i]) then [s[i]] else []);
    var kept := Filter(s[..i], p);
    if p(s[i]) {
      assert (kept + [s[i]])[..|kept|] == kept;
    } else {
      assert kept + [] == kept;
    }
  }

  /** Nothing is kept when no element has the key asked for. */
  lemma {:induction false} FilterNoKey<T, K>(s: seq<T>, key: T -> K, k: K)
    requires forall i :: 0 <= i < |s| ==> key(s[i]) != k
    ensures Filter(s, KeyIs(key, k)) == []
  {
    if s != [] {
      assert forall i :: 0 <= i < |s[1..]| ==> s[1..][i] == s[i + 1];
      FilterNoKey(s[1..], key, k);
    }
  }

  lemma {:induction false} InsertDistinct<T>(x: T, s: seq<T>, le: (T, T) -> bool)
    requires Distinct(s) && x !in s
    ensures Distinct(Insert(x, s, le))
  {
    if s != [] && le(s[0], x) {
      InsertDistinct(x, s[1..], le);
      var r := Insert(x, s[1..], le);
      assert s[0] !in r by {
        assert forall j :: 0 <= j < |s[1..]| ==> s[1..][j] == s[j + 1];
        assert s[0] !in s[1..];
        assert s[0] != x;
        assert s[0] !in multiset(r);
      }
      var out := [s[0]] + r;
      forall i, j | 0 <= i < j < |out|
        ensures out[i] != out[j]
      {
        if i == 0 { assert out[j] == r[j - 1]; } else { assert out[i] == r[i - 1] && out[j] == r[j - 1]; }
      }
    } else {
      var out := [x] + s;
      forall i, j | 0 <= i < j < |out|
        ensures out[i] != out[j]
      {
        if i == 0 { assert out[j] == s[j - 1]; } else { assert out[i] == s[i - 1] && out[j] == s[j - 1]; }
      }
    }
  }

  /** Sorting distinct keys leaves them distinct. */
  lemma {:induction false} SortByDistinct<T>(s: seq<T>, le: (T, T) -> bool)
    requires Distinct(s)
    ensures Distinct(SortBy(s, le))
  {
    if s != [] {
      var init, last := s[..|s| - 1], s[|s| - 1];
      assert forall i :: 0 <= i < |init| ==> init[i] == s[i];
      SortByDistinct(init, le);
      assert last !in SortBy(init, le) by {
        assert last !in multiset(init);
      }
      InsertDistinct(last, SortBy(init, le), le);
    }
  }

  /** Each element counts once. */
  function One<T>(): T -> real {
    (x: T) => 1.0
  }

  /** Summing ones counts the elements. */
  lemma {:induction false} SumByOne<T>(s: seq<T>)
    ensures SumBy(s, One()) == |s| as real
  {
    if s != [] {
      SumByOne(s[..|s| - 1]);
    }
  }

  /** What `Dedup` of a loop's prefix gains from one more element: a key not seen before. */
  lemma DedupStep<K>(s: seq<K>, i: nat)
    requires i < |s|
    ensures Dedup(s[..i + 1]) == if s[i] in Dedup(s[..i]) then Dedup(s[..i]) else Dedup(s[..i]) + [s[i]]
  {
    assert s[..i + 1][..i] == s[..i];
  }

  /** `Dedup` keeps exactly the elements it is given. */
  lemma DedupElements<K>(s: seq<K>)
    ensures forall x :: x in Dedup(s) <==> x in s
  {
    forall x | x in Dedup(s)
      ensures x in s
    {
      var i :| 0 <= i < |Dedup(s)| && Dedup(s)[i] == x;
    }
    forall x | x in s
      ensures x in Dedup(s)
    {
      var i :| 0 <= i < |s| && s[i] == x;
    }
  }

  /** One element of `DedupElements`, without the quantifier. */
  lemma DedupHas<K>(s: seq<K>, x: K)
    ensures x in Dedup(s) <==> x in s
  {
    DedupElements(s);
  }

  /** Reordering the elements does not change which values a `map` produces. */
  lemma MapSeqPermutation<T, U>(a: seq<T>, b: seq<T>, g: T -> U)
    requires multiset(a) == multiset(b)
    ensures forall u :: u in MapSeq(a, g) <==> u in MapSeq(b, g)
  {
    forall u | u in MapSeq(a, g)
      ensures u in MapSeq(b, g)
    {
      var i :| 0 <= i < |a| && MapSeq(a, g)[i] == u;
      assert a[i] in multiset(b);
      var k :| 0 <= k < |b| && b[k] == a[i];
      assert MapSeq(b, g)[k] == u;
    }
    forall u | u in MapSeq(b, g)
      ensures u in MapSeq(a, g)
    {
      var k :| 0 <= k < |b| && MapSeq(b, g)[k] == u;
      assert b[k] in multiset(a);
      var i :| 0 <= i < |a| && a[i] == b[k];
      assert MapSeq(a, g)[i] == u;
    }
  }

  /** `index` maps each element of `keys` to its position and holds nothing else: a `Map` kept beside a key list. */
  predicate IsIndexOf<K>(index: map<K, nat>, keys: seq<K>) {
    && (forall k :: k in index ==> index[k] < |keys| && keys[index[k]] == k)
    && (forall j :: 0 <= j < |keys| ==> keys[j] in index && index[keys[j]] == j)
  }

  /** `index.set(key, keys.length); keys.push(key)` for a new key keeps the two in step. */
  lemma IndexPush<K>(index: map<K, nat>, keys: seq<K>, key: K)
    requires IsIndexOf(index, keys) && key !in index
    ensures IsIndexOf(index[key := |keys|], keys + [key])
  {
  }

  /** The keys of the map are the elements of the list. */
  lemma IndexMembership<K>(index: map<K, nat>, keys: seq<K>)
    requires IsIndexOf(index, keys)
    ensures forall k :: k in index <==> k in keys
  {
    forall k | k in keys
      ensures k in index
    {
      var j :| 0 <= j < |keys| && keys[j] == k;
    }
  }

  /** The number of elements satisfying `p`, built up from the front of `s` as a loop over a prefix is. */
  function CountBy<T>(s: seq<T>, p: T -> bool): nat {
    if s == [] then 0 else CountBy(s[..|s| - 1], p) + (if p(s[|s| - 1]) then 1 else 0)
  }

  /** Counting is the length of the filtered list. */
  lemma {:induction false} CountByFilter<T>(s: seq<T>, p: T -> bool)
    ensures CountBy(s, p) == |Filter(s, p)|
  {
    if s != [] {
      var n := |s| - 1;
      CountByFilter(s[..n], p);
      assert s == s[..n] + [s[n]];
      FilterAppend(s[..n], [s[n]], p);
      assert Filter([s[n]], p) == (if p(s[n]) then [s[n]] else []);
    }
  }

  /** `counts.reduce((a, b) => a + b, 0)`. */
  function SumNat(s: seq<nat>): nat {
    if s == [] then 0 else SumNat(s[..|s| - 1]) + s[|s| - 1]
  }

  /** Replacing one entry changes the sum by the difference. */
  lemma {:induction false} SumNatUpdate(s: seq<nat>, k: nat, v: nat)
    requires k < |s|
    ensures SumNat(s[k := v]) + s[k] == SumNat(s) + v
  {
    var n := |s| - 1;
    assert s[k := v][..n] == if k < n then s[..n][k := v] else s[..n];
    if k < n {
      SumNatUpdate(s[..n], k, v);
    }
  }

  lemma {:induction false} SumNatZero(s: seq<nat>)
    requires forall i :: 0 <= i < |s| ==> s[i] == 0
    ensures SumNat(s) == 0
  {
    if s != [] {
      SumNatZero(s[..|s| - 1]);
    }
  }
}
