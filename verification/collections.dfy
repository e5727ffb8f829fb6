/** Generic sequence and map operations that the array methods of the source
    (`filter`, `find`, a `Set`-guarded filter, a `Record` of arrays built by
    pushing, a stable `sort`) stand for. */
module Collections {
  import opened Wrappers

  /** No element occurs twice. */
  predicate Distinct<T(==)>(s: seq<T>) {
    forall i, j :: 0 <= i < j < |s| ==> s[i] != s[j]
  }

  /** No two elements share a key. */
  predicate UniqueKeys<T, K(==)>(s: seq<T>, key: T -> K) {
    forall i, j :: 0 <= i < j < |s| ==> key(s[i]) != key(s[j])
  }

  /** The elements of `s` as a set. */
  function Elems<T(==)>(s: seq<T>): set<T> {
    set x | x in s
  }

  /** The keys of the elements of `s`. */
  function KeysOf<T(==), K(==)>(s: seq<T>, key: T -> K): set<K> {
    set x | x in s :: key(x)
  }

  /** Everything in a prefix is in the whole sequence. */
  lemma PrefixMembers<T>(a: seq<T>, b: seq<T>)
    requires a <= b
    ensures forall x :: x in a ==> x in b
  {
    forall x | x in a ensures x in b {
      var i :| 0 <= i < |a| && a[i] == x;
      assert b[i] == x;
    }
  }

  lemma KeysOfSnoc<T, K>(xs: seq<T>, x: T, key: T -> K)
    ensures KeysOf(xs + [x], key) == KeysOf(xs, key) + {key(x)}
  {
    assert forall y :: y in xs + [x] <==> y in xs || y == x;
  }

  /** `m[k] || []`: a missing key reads as the empty list. */
  function Lookup<K(==), V>(m: map<K, seq<V>>, k: K): (r: seq<V>)
    ensures k !in m ==> r == []
    ensures k in m ==> r == m[k]
  {
    if k in m then m[k] else []
  }

  /** The identity, for grouping elements by themselves. */
  function Identity<T>(x: T): T { x }

  // ---------------------------------------------------------------------------
  // Searching

  /** Index of the first element satisfying `p`, or `|xs|` when there is none. */
  function IndexWhere<T>(xs: seq<T>, p: T -> bool): (i: nat)
    ensures i <= |xs|
    ensures i < |xs| ==> p(xs[i])
    ensures forall j :: 0 <= j < i ==> !p(xs[j])
  {
    if xs == [] then 0
    else if p(xs[0]) then 0
    else 1 + IndexWhere(xs[1..], p)
  }

  /** `xs.find(p)`: the first element satisfying `p`. */
  function Find<T>(xs: seq<T>, p: T -> bool): (r: Option<T>)
    ensures r.None? <==> forall j :: 0 <= j < |xs| ==> !p(xs[j])
    ensures r.Some? ==> exists i :: 0 <= i < |xs| && xs[i] == r.value && p(xs[i])
                                    && forall j :: 0 <= j < i ==> !p(xs[j])
  {
    var i := IndexWhere(xs, p);
    if i < |xs| then Some(xs[i]) else None
  }

  /** `xs.filter(p)`: the elements satisfying `p`, in their original order. */
  function Filter<T(!new)>(xs: seq<T>, p: T -> bool): (r: seq<T>)
    ensures |r| <= |xs|
    ensures forall x :: x in r <==> x in xs && p(x)
  {
    if xs == [] then []
    else (if p(xs[0]) then [xs[0]] else []) + Filter(xs[1..], p)
  }

  /** Filtering keeps every element when every element passes. */
  lemma {:induction false} FilterAll<T(!new)>(xs: seq<T>, p: T -> bool)
    requires forall x :: x in xs ==> p(x)
    ensures Filter(xs, p) == xs
  {
    if xs != [] {
      FilterAll(xs[1..], p);
      assert xs == [xs[0]] + xs[1..];
    }
  }

  /** Filtering with predicates that agree on the list gives the same result. */
  lemma {:induction false} FilterCongruent<T(!new)>(xs: seq<T>, p: T -> bool, q: T -> bool)
    requires forall x :: x in xs ==> p(x) == q(x)
    ensures Filter(xs, p) == Filter(xs, q)
  {
    if xs != [] {
      FilterCongruent(xs[1..], p, q);
    }
  }

  /** Filtering a distinct list leaves it distinct. */
  lemma {:induction false} FilterDistinct<T(!new)>(xs: seq<T>, p: T -> bool)
    requires Distinct(xs)
    ensures Distinct(Filter(xs, p))
  {
    if xs != [] {
      FilterDistinct(xs[1..], p);
      assert xs[0] !in xs[1..];
      assert xs[0] !in Filter(xs[1..], p);
    }
  }

  // ---------------------------------------------------------------------------
  // Grouping

  /** Reference definition of one group: `val(x)` for every `x` of `xs` whose
      key is `k`, in the order of `xs`. */
  function Collect<T(!new), K(==), V(!new)>(xs: seq<T>, key: T -> K, val: T -> V, k: K): (r: seq<V>)
    ensures |r| <= |xs|
    ensures forall v :: v in r <==> exists x :: x in xs && key(x) == k && val(x) == v
  {
    if xs == [] then []
    else (if key(xs[0]) == k then [val(xs[0])] else []) + Collect(xs[1..], key, val, k)
  }

  /** Appending one element extends exactly its own group. */
  lemma {:induction false} CollectSnoc<T(!new), K, V(!new)>(xs: seq<T>, x: T, key: T -> K, val: T -> V, k: K)
    ensures Collect(xs + [x], key, val, k)
         == Collect(xs, key, val, k) + (if key(x) == k then [val(x)] else [])
  {
    if xs != [] {
      assert (xs + [x])[1..] == xs[1..] + [x];
      CollectSnoc(xs[1..], x, key, val, k);
    } else {
      assert [x][1..] == [];
    }
  }

  /** A group of the elements themselves is the filter on its key. */
  lemma {:induction false} CollectIsFilter<T(!new), K>(xs: seq<T>, key: T -> K, k: K, p: T -> bool)
    requires forall x :: p(x) == (key(x) == k)
    ensures Collect(xs, key, Identity, k) == Filter(xs, p)
  {
    if xs != [] {
      CollectIsFilter(xs[1..], key, k, p);
    }
  }

  /** The groups built by walking `xs` once and pushing `val(x)` onto the list
      stored under `key(x)`: each group is the ordered sub-list of its key. */
  function GroupBy<T(!new), K(==,!new), V(!new)>(xs: seq<T>, key: T -> K, val: T -> V): (m: map<K, seq<V>>)
    ensures m.Keys == KeysOf(xs, key)
    ensures forall k :: Lookup(m, k) == Collect(xs, key, val, k)
  {
    if xs == [] then map[]
    else
      var init, x := xs[..|xs| - 1], xs[|xs| - 1];
      assert xs == init + [x];
      var m := GroupBy(init, key, val);
      forall k ensures Collect(xs, key, val, k)
                    == Collect(init, key, val, k) + (if key(x) == k then [val(x)] else []) {
        CollectSnoc(init, x, key, val, k);
      }
      assert KeysOf(xs, key) == KeysOf(init, key) + {key(x)};
      m[key(x) := Lookup(m, key(x)) + [val(x)]]
  }

  // ---------------------------------------------------------------------------
  // De-duplication

  /** Keeps each element whose key is neither in `seen` nor taken by an earlier
      element: the `seen`-set filter of the source. */
  function DedupFrom<T(==), K(==)>(xs: seq<T>, key: T -> K, seen: set<K>): (r: seq<T>)
    ensures UniqueKeys(r, key)
    ensures forall y :: y in r ==> y in xs && key(y) !in seen
    ensures KeysOf(r, key) == KeysOf(xs, key) - seen
  {
    if xs == [] then []
    else
      var rest := xs[1..];
      assert xs == [xs[0]] + rest;
      assert KeysOf(xs, key) == {key(xs[0])} + KeysOf(rest, key);
      if key(xs[0]) in seen then DedupFrom(rest, key, seen)
      else
        var tail := DedupFrom(rest, key, seen + {key(xs[0])});
        assert KeysOf([xs[0]] + tail, key) == {key(xs[0])} + KeysOf(tail, key);
        [xs[0]] + tail
  }

  /** Keeps the first element of each key, in order. */
  function DedupBy<T(==), K(==)>(xs: seq<T>, key: T -> K): (r: seq<T>)
    ensures UniqueKeys(r, key)
    ensures forall y :: y in r ==> y in xs
    ensures KeysOf(r, key) == KeysOf(xs, key)
  {
    DedupFrom(xs, key, {})
  }

  /** Position of the first element of `xs` whose key is `k` (`|xs|` when none). */
  function FirstIndexOfKey<T, K(==)>(xs: seq<T>, key: T -> K, k: K): (i: nat)
    ensures i <= |xs|
    ensures i < |xs| ==> key(xs[i]) == k
    ensures forall j :: 0 <= j < i ==> key(xs[j]) != k
  {
    if xs == [] then 0
    else if key(xs[0]) == k then 0
    else 1 + FirstIndexOfKey(xs[1..], key, k)
  }

  /** `y` is the first element of `xs` carrying its key. */
  ghost predicate IsFirstOfKey<T, K>(xs: seq<T>, key: T -> K, y: T) {
    FirstIndexOfKey(xs, key, key(y)) < |xs| && y == xs[FirstIndexOfKey(xs, key, key(y))]
  }

  /** A key other than the head's is first found one position later than in the tail. */
  lemma FirstIndexOfKeyTail<T, K>(xs: seq<T>, key: T -> K, k: K)
    requires xs != [] && key(xs[0]) != k
    ensures FirstIndexOfKey(xs, key, k) == 1 + FirstIndexOfKey(xs[1..], key, k)
  {
  }

  /** The step shared by both dedup lemmas: what the recursive call keeps. */
  lemma DedupFromStep<T, K>(xs: seq<T>, key: T -> K, seen: set<K>)
    requires xs != []
    ensures key(xs[0]) in seen ==> DedupFrom(xs, key, seen) == DedupFrom(xs[1..], key, seen)
    ensures key(xs[0]) !in seen ==>
              DedupFrom(xs, key, seen) == [xs[0]] + DedupFrom(xs[1..], key, seen + {key(xs[0])})
    ensures key(xs[0]) !in seen ==>
              forall y :: y in DedupFrom(xs[1..], key, seen + {key(xs[0])}) ==> key(y) != key(xs[0])
  {
  }

  /** Each kept element is the FIRST occurrence of its key. */
  lemma {:induction false} DedupFromKeepsFirst<T, K>(xs: seq<T>, key: T -> K, seen: set<K>)
    ensures forall y :: y in DedupFrom(xs, key, seen) ==> IsFirstOfKey(xs, key, y)
  {
    if xs != [] {
      var rest := xs[1..];
      var seen' := if key(xs[0]) in seen then seen else seen + {key(xs[0])};
      DedupFromKeepsFirst(rest, key, seen');
      DedupFromStep(xs, key, seen);
      forall y | y in DedupFrom(rest, key, seen') ensures IsFirstOfKey(xs, key, y) {
        assert key(y) in seen' ==> false;
        FirstIndexOfKeyTail(xs, key, key(y));
        assert xs[1 + FirstIndexOfKey(rest, key, key(y))] == rest[FirstIndexOfKey(rest, key, key(y))];
      }
      assert IsFirstOfKey(xs, key, xs[0]);
    }
  }

  /** Kept elements appear in the order of their keys' first occurrences. */
  lemma {:induction false} DedupFromKeepsOrder<T, K>(xs: seq<T>, key: T -> K, seen: set<K>)
    ensures var r := DedupFrom(xs, key, seen);
            forall a, b :: 0 <= a < b < |r| ==>
              FirstIndexOfKey(xs, key, key(r[a])) < FirstIndexOfKey(xs, key, key(r[b]))
  {
    if xs != [] {
      var rest := xs[1..];
      var seen' := if key(xs[0]) in seen then seen else seen + {key(xs[0])};
      DedupFromKeepsOrder(rest, key, seen');
      DedupFromStep(xs, key, seen);
      var r, r' := DedupFrom(xs, key, seen), DedupFrom(rest, key, seen');
      var off := if key(xs[0]) in seen then 0 else 1;
      assert forall a :: 0 <= a < |r'| ==> r[a + off] == r'[a];
      forall a | 0 <= a < |r'|
        ensures FirstIndexOfKey(xs, key, key(r'[a])) == 1 + FirstIndexOfKey(rest, key, key(r'[a]))
      {
        assert r'[a] in r';
        FirstIndexOfKeyTail(xs, key, key(r'[a]));
      }
      forall a, b | 0 <= a < b < |r|
        ensures FirstIndexOfKey(xs, key, key(r[a])) < FirstIndexOfKey(xs, key, key(r[b]))
      {
        if a < off {
          assert FirstIndexOfKey(xs, key, key(r[a])) == 0;
          assert r[b] == r'[b - off];
        } else {
          assert r[a] == r'[a - off] && r[b] == r'[b - off];
        }
      }
    }
  }

  /** De-duplicating a concatenation: the second part is filtered against the
      keys the first part contributed. */
  lemma {:induction false} DedupFromAppend<T, K>(xs: seq<T>, ys: seq<T>, key: T -> K, seen: set<K>)
    ensures DedupFrom(xs + ys, key, seen) == DedupFrom(xs, key, seen) + DedupFrom(ys, key, seen + KeysOf(xs, key))
  {
    if xs == [] {
      assert xs + ys == ys;
      assert KeysOf(xs, key) == {};
      assert seen + KeysOf(xs, key) == seen;
    } else {
      assert (xs + ys)[1..] == xs[1..] + ys;
      assert KeysOf(xs, key) == {key(xs[0])} + KeysOf(xs[1..], key);
      var seen' := if key(xs[0]) in seen then seen else seen + {key(xs[0])};
      DedupFromAppend(xs[1..], ys, key, seen');
      assert seen' + KeysOf(xs[1..], key) == seen + KeysOf(xs, key);
    }
  }

  /** Nothing survives when every key was seen already. */
  lemma DedupFromCovered<T, K>(xs: seq<T>, key: T -> K, seen: set<K>)
    requires KeysOf(xs, key) <= seen
    ensures DedupFrom(xs, key, seen) == []
  {
  }

  /** A list whose keys are unique and unseen is kept whole. */
  lemma {:induction false} DedupFromUnique<T, K>(xs: seq<T>, key: T -> K, seen: set<K>)
    requires UniqueKeys(xs, key)
    requires forall x :: x in xs ==> key(x) !in seen
    ensures DedupFrom(xs, key, seen) == xs
  {
    if xs != [] {
      forall x | x in xs[1..] ensures key(x) !in seen + {key(xs[0])} {
        var j :| 0 <= j < |xs[1..]| && xs[1..][j] == x;
        assert xs[j + 1] == x;
      }
      DedupFromUnique(xs[1..], key, seen + {key(xs[0])});
      assert xs == [xs[0]] + xs[1..];
    }
  }

  /** Prepending a list to a list that already starts with it changes nothing
      after de-duplication. */
  lemma DedupByAbsorbsPrefix<T, K>(xs: seq<T>, ys: seq<T>, key: T -> K)
    ensures DedupBy(xs + (xs + ys), key) == DedupBy(xs + ys, key)
  {
    var k := KeysOf(xs, key);
    assert {} + k == k && k + k == k;
    calc {
      DedupFrom(xs + (xs + ys), key, {});
      { DedupFromAppend(xs, xs + ys, key, {}); }
      DedupFrom(xs, key, {}) + DedupFrom(xs + ys, key, k);
      { DedupFromAppend(xs, ys, key, k); DedupFromCovered(xs, key, k); }
      DedupFrom(xs, key, {}) + DedupFrom(ys, key, k);
      { DedupFromAppend(xs, ys, key, {}); }
      DedupFrom(xs + ys, key, {});
    }
  }

  /** A distinct list has every element at most once. */
  lemma {:induction false} DistinctCount<T>(s: seq<T>, v: T)
    requires Distinct(s)
    ensures multiset(s)[v] <= 1
  {
    if s != [] {
      DistinctCount(s[1..], v);
      assert s == [s[0]] + s[1..];
      if s[0] == v {
        assert v !in s[1..];
      }
    }
  }

  /** A permutation of a distinct list is distinct. */
  lemma DistinctPermutation<T>(xs: seq<T>, ys: seq<T>)
    requires multiset(xs) == multiset(ys)
    requires Distinct(xs)
    ensures Distinct(ys)
  {
    forall i, j | 0 <= i < j < |ys| ensures ys[i] != ys[j] {
      if ys[i] == ys[j] {
        var v := ys[i];
        assert ys == ys[..j] + [ys[j]] + ys[j + 1..];
        assert v in ys[..j];
        assert multiset(ys)[v] >= 2;
        DistinctCount(xs, v);
      }
    }
  }

  // ---------------------------------------------------------------------------
  // Stable insertion sort

  /** `before` is a total preorder: what a consistent comparator induces. */
  ghost predicate TotalPreorder<T(!new)>(before: (T, T) -> bool) {
    && (forall a, b :: before(a, b) || before(b, a))
    && (forall a, b, c :: before(a, b) && before(b, c) ==> before(a, c))
  }

  /** Every element is `before` every later one. */
  ghost predicate SortedBy<T>(s: seq<T>, before: (T, T) -> bool) {
    forall i, j :: 0 <= i < j < |s| ==> before(s[i], s[j])
  }

  /** Inserts `x` ahead of the first element it is `before`; an equal element
      already present stays behind it, which keeps the sort stable. */
  function InsertBy<T(==)>(x: T, s: seq<T>, before: (T, T) -> bool): (r: seq<T>)
    ensures multiset(r) == multiset(s) + multiset{x}
  {
    if s == [] then [x]
    else if before(x, s[0]) then [x] + s
    else
      assert s == [s[0]] + s[1..];
      [s[0]] + InsertBy(x, s[1..], before)
  }

  /** Array sort with a comparator: a permutation of `xs`. */
  function SortBy<T(==)>(xs: seq<T>, before: (T, T) -> bool): (r: seq<T>)
    ensures multiset(r) == multiset(xs)
  {
    if xs == [] then []
    else
      assert xs == [xs[0]] + xs[1..];
      InsertBy(xs[0], SortBy(xs[1..], before), before)
  }

  // ---------------------------------------------------------------------------
  // Concatenation of blocks

  /** The blocks laid end to end. */
  function Concat<T>(blocks: seq<seq<T>>): seq<T> {
    if blocks == [] then [] else blocks[0] + Concat(blocks[1..])
  }

  /** Where block `i` starts in `Concat(blocks)`: the sizes of the blocks before it. */
  function BlockStart<T>(blocks: seq<seq<T>>, i: nat): nat
    requires i <= |blocks|
  {
    if i == 0 then 0 else |blocks[0]| + BlockStart(blocks[1..], i - 1)
  }

  lemma {:induction false} BlockStartMonotone<T>(blocks: seq<seq<T>>, i: nat, j: nat)
    requires i <= j <= |blocks|
    ensures BlockStart(blocks, i) <= BlockStart(blocks, j)
  {
    if i > 0 {
      BlockStartMonotone(blocks[1..], i - 1, j - 1);
    }
  }

  lemma {:induction false} ConcatLength<T>(blocks: seq<seq<T>>)
    ensures |Concat(blocks)| == BlockStart(blocks, |blocks|)
  {
    if blocks != [] {
      ConcatLength(blocks[1..]);
    }
  }

  /** Element `k` of block `i` sits at `BlockStart(blocks, i) + k`, before the next block starts. */
  lemma {:induction false} ConcatAt<T>(blocks: seq<seq<T>>, i: nat, k: nat)
    requires i < |blocks| && k < |blocks[i]|
    ensures BlockStart(blocks, i) + k < BlockStart(blocks, i + 1) <= |Concat(blocks)|
    ensures Concat(blocks)[BlockStart(blocks, i) + k] == blocks[i][k]
  {
    ConcatLength(blocks);
    BlockStartMonotone(blocks, i + 1, |blocks|);
    if i > 0 {
      ConcatAt(blocks[1..], i - 1, k);
      assert blocks[1..][i - 1] == blocks[i];
      var j := BlockStart(blocks[1..], i - 1) + k;
      assert Concat(blocks)[|blocks[0]| + j] == Concat(blocks[1..])[j];
    }
  }

  /** Sorting keeps exactly the elements it was given. */
  lemma SortByMembers<T>(xs: seq<T>, before: (T, T) -> bool)
    ensures forall x :: x in SortBy(xs, before) <==> x in xs
  {
    var r := SortBy(xs, before);
    forall x ensures x in r <==> x in xs {
      assert x in r <==> x in multiset(r);
      assert x in xs <==> x in multiset(xs);
    }
  }

  /** Sorting what a filter kept lists exactly the elements that pass. */
  lemma SortFilterMembers<T(!new)>(xs: seq<T>, p: T -> bool, before: (T, T) -> bool)
    ensures forall x :: x in SortBy(Filter(xs, p), before) <==> x in xs && p(x)
  {
    SortByMembers(Filter(xs, p), before);
  }

  lemma {:induction false} InsertBySorted<T(!new)>(x: T, s: seq<T>, before: (T, T) -> bool)
    requires TotalPreorder(before)
    requires SortedBy(s, before)
    ensures SortedBy(InsertBy(x, s, before), before)
  {
    if s != [] && !before(x, s[0]) {
      var tail := InsertBy(x, s[1..], before);
      InsertBySorted(x, s[1..], before);
      assert before(s[0], x);
      forall y | y in tail ensures before(s[0], y) {
        assert y in multiset(tail);
        assert y in multiset(s[1..]) + multiset{x};
        if y != x {
          assert y in s[1..];
        }
      }
    }
  }

  /** The sort yields an ordered sequence whenever the comparator is a total preorder. */
  lemma {:induction false} SortBySorted<T(!new)>(xs: seq<T>, before: (T, T) -> bool)
    requires TotalPreorder(before)
    ensures SortedBy(SortBy(xs, before), before)
  {
    if xs != [] {
      SortBySorted(xs[1..], before);
      InsertBySorted(xs[0], SortBy(xs[1..], before), before);
    }
  }

  /** Dropping the head keeps a sequence sorted. */
  lemma SortedTail<T>(s: seq<T>, before: (T, T) -> bool)
    requires s != [] && SortedBy(s, before)
    ensures SortedBy(s[1..], before)
  {
    var t := s[1..];
    forall i, j | 0 <= i < j < |t| ensures before(t[i], t[j]) {
      assert t[i] == s[i + 1] && t[j] == s[j + 1];
    }
  }

  /** Splitting off the head splits the multiset. */
  lemma MultisetCons<T>(s: seq<T>)
    requires s != []
    ensures multiset(s) == multiset{s[0]} + multiset(s[1..])
  {
    assert s == [s[0]] + s[1..];
  }

  /** Two arrangements of the same elements with the same head have arrangements
      of the same elements as tails. */
  lemma MultisetSameTails<T>(s1: seq<T>, s2: seq<T>)
    requires s1 != [] && s2 != [] && s1[0] == s2[0]
    requires multiset(s1) == multiset(s2)
    ensures multiset(s1[1..]) == multiset(s2[1..])
  {
    MultisetCons(s1);
    MultisetCons(s2);
    assert multiset(s1[1..]) == multiset(s1) - multiset{s1[0]};
    assert multiset(s2[1..]) == multiset(s2) - multiset{s2[0]};
  }

  /** Filtering keeps the order of what it keeps. */
  lemma {:induction false} FilterSorted<T(!new)>(xs: seq<T>, p: T -> bool, before: (T, T) -> bool)
    requires SortedBy(xs, before)
    ensures SortedBy(Filter(xs, p), before)
  {
    if xs != [] {
      FilterSorted(xs[1..], p, before);
      var tail := Filter(xs[1..], p);
      forall y | y in tail ensures before(xs[0], y) {
        var j :| 0 <= j < |xs[1..]| && xs[1..][j] == y;
        assert xs[j + 1] == y;
      }
    }
  }
}
