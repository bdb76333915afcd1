/**
 * The loops that fill a `Map` while walking a list of records: the keys in
 * order of first occurrence (a `Map`'s iteration order), a key's position,
 * and per-key counts and sums. The month, channel and guest-count charts are
 * built from them with their own key functions.
 */
module Tally {
  import opened Seqs

  /** `if (!index.has(k)) { index.set(k, keys.length); keys.push(k); }` for every element. */
  method FirstOccurrences<T, K(==)>(s: seq<T>, key: T -> K) returns (keys: seq<K>, index: map<K, nat>)
    ensures keys == Dedup(MapSeq(s, key))
    ensures IsIndexOf(index, keys)
    ensures forall i :: 0 <= i < |s| ==> key(s[i]) in index
  {
    ghost var ks := MapSeq(s, key);
    keys := [];
    index := map[];
    var i := 0;
    while i < |s|
      invariant i <= |s|
      invariant keys == Dedup(ks[..i])
      invariant IsIndexOf(index, keys)
    {
      var k := key(s[i]);
      DedupStep(ks, i);
      IndexMembership(index, keys);
      if k !in index {
        IndexPush(index, keys, k);
        index := index[k := |keys|];
        keys := keys + [k];
      }
      i := i + 1;
    }
    assert ks[..i] == ks;
    forall i | 0 <= i < |s|
      ensures key(s[i]) in index
    {
      assert ks[i] == key(s[i]);
      IndexMembership(index, keys);
    }
  }

  /**
   * One row per element: `new Array(keys.length).fill(0)` with the element's
   * value written at its key's position.
   */
  method Segments<T, K(==)>(s: seq<T>, key: T -> K, value: T -> real, keys: seq<K>, index: map<K, nat>)
    returns (rows: seq<seq<real>>)
    requires IsIndexOf(index, keys)
    requires forall i :: 0 <= i < |s| ==> key(s[i]) in index
    ensures |rows| == |s|
    ensures forall k :: 0 <= k < |s| ==> |rows[k]| == |keys|
    ensures forall k, j :: 0 <= k < |s| && 0 <= j < |keys| ==> rows[k][j] == Masked(key, keys[j], value)(s[k])
  {
    var n := |keys|;
    rows := [];
    var i := 0;
    while i < |s|
      invariant i <= |s|
      invariant |rows| == i
      invariant forall k :: 0 <= k < i ==> |rows[k]| == n
      invariant forall k, j :: 0 <= k < i && 0 <= j < n ==> rows[k][j] == Masked(key, keys[j], value)(s[k])
    {
      var idx := index[key(s[i])];
      var data := new real[n](_ => 0.0);
      data[idx] := value(s[i]);
      forall j | 0 <= j < n
        ensures data[j] == Masked(key, keys[j], value)(s[i])
      {
        assert keys[j] in index && index[keys[j]] == j;
      }
      rows := rows + [data[..]];
      i := i + 1;
    }
  }

  /** A key's running count of elements and sum of `f`: the `{ bookings, nights }` object of a `Map` entry. */
  datatype Entry = Entry(count: nat, total: real)

  /** `m` holds, for every key it knows, the number of elements of `s` with that key and the sum of `f` over them. */
  predicate Tallies<T, K>(s: seq<T>, key: T -> K, f: T -> real, m: map<K, Entry>) {
    forall k :: k in m ==> m[k] == Entry(CountBy(s, KeyIs(key, k)), SumBy(s, Masked(key, k, f)))
  }

  /** One more element with key `k` and value `v`: a new entry starts at zero. */
  function Bump<K>(m: map<K, Entry>, k: K, v: real): map<K, Entry> {
    var e := if k in m then m[k] else Entry(0, 0.0);
    m[k := Entry(e.count + 1, e.total + v)]
  }

  /** The map the tallying loop builds over `s`, one element at a time. */
  function TallyOf<T, K>(s: seq<T>, key: T -> K, f: T -> real): map<K, Entry> {
    if s == [] then map[]
    else Bump(TallyOf(s[..|s| - 1], key, f), key(s[|s| - 1]), f(s[|s| - 1]))
  }

  /** A key is in the tally exactly when some element has it. */
  lemma {:induction false} TallyOfHas<T, K>(s: seq<T>, key: T -> K, f: T -> real, k: K)
    ensures k in TallyOf(s, key, f) <==> k in MapSeq(s, key)
  {
    if s != [] {
      var n := |s| - 1;
      TallyOfHas(s[..n], key, f, k);
      assert MapSeq(s, key) == MapSeq(s[..n], key) + [key(s[n])];
    }
  }

  /** The tally knows exactly the keys that occur, and for each the number of elements and the sum of `f` over them. */
  lemma {:induction false} TallyOfMeaning<T, K>(s: seq<T>, key: T -> K, f: T -> real)
    ensures forall k :: k in TallyOf(s, key, f) <==> k in MapSeq(s, key)
    ensures Tallies(s, key, f, TallyOf(s, key, f))
  {
    forall k
      ensures k in TallyOf(s, key, f) <==> k in MapSeq(s, key)
    {
      TallyOfHas(s, key, f, k);
    }
    if s != [] {
      var n := |s| - 1;
      var init, x := s[..n], s[n];
      TallyOfMeaning(init, key, f);
      TallyOfHas(init, key, f, key(x));
      if key(x) !in TallyOf(init, key, f) {
        forall j | 0 <= j < |init|
          ensures key(init[j]) != key(x)
        {
          assert key(init[j]) in MapSeq(init, key);
        }
        ZeroTally(init, key, f, key(x));
      }
    }
  }

  /** What the tally of a loop's prefix gains from one more element. */
  lemma TallyOfStep<T, K>(s: seq<T>, i: nat, key: T -> K, f: T -> real)
    requires i < |s|
    ensures TallyOf(s[..i + 1], key, f) == Bump(TallyOf(s[..i], key, f), key(s[i]), f(s[i]))
  {
    assert s[..i + 1][..i] == s[..i];
  }

  /** A key no element has counts and sums to zero. */
  lemma {:induction false} ZeroTally<T, K>(s: seq<T>, key: T -> K, f: T -> real, k: K)
    requires forall j :: 0 <= j < |s| ==> key(s[j]) != k
    ensures CountBy(s, KeyIs(key, k)) == 0 && SumBy(s, Masked(key, k, f)) == 0.0
  {
    if s != [] {
      var n := |s| - 1;
      assert forall j :: 0 <= j < n ==> s[..n][j] == s[j];
      ZeroTally(s[..n], key, f, k);
    }
  }

  /** What a tally means in terms of the filtered lists. */
  lemma TalliesMeaning<T, K>(s: seq<T>, key: T -> K, f: T -> real, m: map<K, Entry>)
    requires Tallies(s, key, f, m)
    ensures forall k :: k in m ==> m[k].count == |Filter(s, KeyIs(key, k))| && m[k].total == SumBy(Filter(s, KeyIs(key, k)), f)
  {
    forall k | k in m
      ensures m[k].count == |Filter(s, KeyIs(key, k))| && m[k].total == SumBy(Filter(s, KeyIs(key, k)), f)
    {
      CountByFilter(s, KeyIs(key, k));
      SumByMasked(s, KeyIs(key, k), f, Masked(key, k, f));
    }
  }

  /**
   * `if (!m.has(k)) m.set(k, { count: 0, total: 0 }); m.get(k).count += 1;
   * m.get(k).total += f(x)` for every element, the new entry and its first
   * increment written as one update.
   */
  method TallyByKey<T, K(==)>(s: seq<T>, key: T -> K, f: T -> real)
    returns (keys: seq<K>, m: map<K, Entry>)
    ensures keys == Dedup(MapSeq(s, key))
    ensures forall k :: k in m <==> k in keys
    ensures forall k :: k in m ==>
      m[k].count == |Filter(s, KeyIs(key, k))| && m[k].total == SumBy(Filter(s, KeyIs(key, k)), f)
  {
    ghost var ks := MapSeq(s, key);
    keys := [];
    m := map[];
    var i := 0;
    while i < |s|
      invariant i <= |s|
      invariant keys == Dedup(ks[..i])
      invariant m == TallyOf(s[..i], key, f)
    {
      var k := key(s[i]);
      DedupStep(ks, i);
      TallyOfStep(s, i, key, f);
      TallyOfHas(s[..i], key, f, k);
      DedupHas(ks[..i], k);
      assert ks[..i] == MapSeq(s[..i], key);
      if k !in m {
        keys := keys + [k];
      }
      m := Bump(m, k, f(s[i]));
      i := i + 1;
    }
    assert s[..i] == s;
    assert ks[..i] == ks;
    TallyOfMeaning(s, key, f);
    DedupElements(ks);
    TalliesMeaning(s, key, f, m);
  }

  /** The counts of `keys`, in their order. */
  function Counts<K>(keys: seq<K>, m: map<K, Entry>): (r: seq<nat>)
    requires forall j :: 0 <= j < |keys| ==> keys[j] in m
    ensures |r| == |keys| && forall j :: 0 <= j < |keys| ==> r[j] == m[keys[j]].count
  {
    seq(|keys|, j requires 0 <= j < |keys| => m[keys[j]].count)
  }

  /** The totals of `keys`, in their order. */
  function Totals<K>(keys: seq<K>, m: map<K, Entry>): (r: seq<real>)
    requires forall j :: 0 <= j < |keys| ==> keys[j] in m
    ensures |r| == |keys| && forall j :: 0 <= j < |keys| ==> r[j] == m[keys[j]].total
  {
    seq(|keys|, j requires 0 <= j < |keys| => m[keys[j]].total)
  }
}
