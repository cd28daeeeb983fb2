// zipById of tasks/task5/game/Entity.hpp: sort both sides by id in place, then
// walk them with two indices and call the callback on each pair with equal ids.
// The model returns the list of index pairs (into the sorted arrays) on which the
// callback is called, in call order; each caller folds its callback over that
// list. std::sort leaves the order among equal ids unspecified; the model fixes
// one sorted permutation, the stable one built by insertion.
module Zip {

  // ---------------------------------------------------------------------------
  // Sorting by key

  /** s ordered by key: every earlier element has a key no greater than every later one. */
  ghost predicate SortedByKey<T>(s: seq<T>, key: T -> int)
  {
    forall p, q :: 0 <= p < q < |s| ==> key(s[p]) <= key(s[q])
  }

  /** Insert x into s after every element whose key is not greater than x's. */
  function Insert<T>(s: seq<T>, x: T, key: T -> int): (r: seq<T>)
    ensures |r| == |s| + 1
  {
    if s == [] || key(s[|s| - 1]) <= key(x) then s + [x]
    else Insert(s[..|s| - 1], x, key) + [s[|s| - 1]]
  }

  /** The stable sort of s by key: insertion of each element in turn. */
  function SortByKey<T>(s: seq<T>, key: T -> int): (r: seq<T>)
    ensures |r| == |s|
  {
    if s == [] then [] else Insert(SortByKey(s[..|s| - 1], key), s[|s| - 1], key)
  }

  lemma {:induction false} InsertPermutes<T>(s: seq<T>, x: T, key: T -> int)
    ensures multiset(Insert(s, x, key)) == multiset(s) + multiset{x}
  {
    if s != [] && key(s[|s| - 1]) > key(x) {
      InsertPermutes(s[..|s| - 1], x, key);
      assert s == s[..|s| - 1] + [s[|s| - 1]];
    }
  }

  lemma {:induction false} InsertSorted<T>(s: seq<T>, x: T, key: T -> int)
    requires SortedByKey(s, key)
    ensures SortedByKey(Insert(s, x, key), key)
  {
    if s != [] && key(s[|s| - 1]) > key(x) {
      var init, last := s[..|s| - 1], s[|s| - 1];
      InsertSorted(init, x, key);
      InsertBounded(init, x, key, key(last));
    }
  }

  /** Inserting into elements whose keys are at most m an element whose key is at most m keeps
      every key at most m. */
  lemma {:induction false} InsertBounded<T>(s: seq<T>, x: T, key: T -> int, m: int)
    requires forall p :: 0 <= p < |s| ==> key(s[p]) <= m
    requires key(x) <= m
    ensures forall p :: 0 <= p < |s| + 1 ==> key(Insert(s, x, key)[p]) <= m
  {
    if s != [] && key(s[|s| - 1]) > key(x) {
      InsertBounded(s[..|s| - 1], x, key, m);
    }
  }

  /** The sort is ordered by key. */
  lemma {:induction false} SortByKeySorted<T>(s: seq<T>, key: T -> int)
    ensures SortedByKey(SortByKey(s, key), key)
  {
    if s != [] {
      SortByKeySorted(s[..|s| - 1], key);
      InsertSorted(SortByKey(s[..|s| - 1], key), s[|s| - 1], key);
    }
  }

  /** The sort is a permutation of its input. */
  lemma {:induction false} SortByKeyPermutes<T>(s: seq<T>, key: T -> int)
    ensures multiset(SortByKey(s, key)) == multiset(s)
  {
    if s != [] {
      SortByKeyPermutes(s[..|s| - 1], key);
      InsertPermutes(SortByKey(s[..|s| - 1], key), s[|s| - 1], key);
      assert s == s[..|s| - 1] + [s[|s| - 1]];
    }
  }

  /** Sorting an already sorted sequence leaves it as it is. */
  lemma {:induction false} SortByKeyOfSorted<T>(s: seq<T>, key: T -> int)
    requires SortedByKey(s, key)
    ensures SortByKey(s, key) == s
  {
    if s != [] {
      var init := s[..|s| - 1];
      assert SortedByKey(init, key);
      SortByKeyOfSorted(init, key);
      assert s == init + [s[|s| - 1]];
    }
  }

  /** Sorting twice is sorting once, so repeated zipById calls on one vector reorder it only once. */
  lemma SortByKeyIdempotent<T>(s: seq<T>, key: T -> int)
    ensures SortByKey(SortByKey(s, key), key) == SortByKey(s, key)
  {
    SortByKeySorted(s, key);
    SortByKeyOfSorted(SortByKey(s, key), key);
  }

  /** A fresh array holding s (the spans zipById works on). */
  method ToArray<T>(s: seq<T>) returns (a: array<T>)
    ensures fresh(a) && a[..] == s
  {
    a := new T[|s|](i requires 0 <= i < |s| => s[i]);
  }

  /** Inserting x past a tail whose keys all exceed x's leaves that tail after x. */
  lemma {:induction false} InsertSplit<T>(s: seq<T>, x: T, key: T -> int, j: nat)
    requires j <= |s|
    requires forall k :: j <= k < |s| ==> key(s[k]) > key(x)
    ensures Insert(s, x, key) == Insert(s[..j], x, key) + s[j..]
    decreases |s| - j
  {
    if j < |s| {
      var init := s[..|s| - 1];
      InsertSplit(init, x, key, j);
      assert init[..j] == s[..j];
      assert init[j..] + [s[|s| - 1]] == s[j..];
    } else {
      assert s[..j] == s;
    }
  }

  /** One pass of the insertion: a[..i] is already sorted; shift the larger elements up and
      drop a[i] into the gap. */
  method InsertLast<T>(a: array<T>, i: nat, key: T -> int)
    requires i < a.Length
    modifies a
    ensures a[..i + 1] == Insert(old(a[..i]), old(a[i]), key)
    ensures a[i + 1..] == old(a[i + 1..])
  {
    ghost var sorted := a[..i];
    var x := a[i];
    var j := ShiftUp(a, i, key(x), key);
    a[j] := x;
    InsertSplit(sorted, x, key, j);
    if j > 0 {
      assert sorted[..j][j - 1] == sorted[j - 1];
    }
    assert Insert(sorted[..j], x, key) == sorted[..j] + [x];
    assert a[..i + 1] == sorted[..j] + [x] + sorted[j..];
  }

  /** The shifting loop: every element of a[..i] with a key above k moves up one place, leaving
      a gap at j; the elements before j keep their keys at most k. */
  method ShiftUp<T>(a: array<T>, i: nat, k: int, key: T -> int) returns (j: nat)
    requires i < a.Length
    modifies a
    ensures j <= i
    ensures forall p :: 0 <= p < j ==> a[p] == old(a[p])
    ensures forall p :: j < p <= i ==> a[p] == old(a[p - 1])
    ensures forall p :: i < p < a.Length ==> a[p] == old(a[p])
    ensures forall p :: j <= p < i ==> key(old(a[p])) > k
    ensures j > 0 ==> key(old(a[j - 1])) <= k
  {
    j := i;
    while j > 0 && key(a[j - 1]) > k
      invariant 0 <= j <= i
      invariant forall p :: 0 <= p < j ==> a[p] == old(a[p])
      invariant forall p :: j < p <= i ==> a[p] == old(a[p - 1])
      invariant forall p :: i < p < a.Length ==> a[p] == old(a[p])
      invariant forall p :: j <= p < i ==> key(old(a[p])) > k
    {
      a[j] := a[j - 1];
      j := j - 1;
    }
  }

  /** std::sort(a.begin(), a.end(), comp) by key, done in place by insertion. */
  method SortInPlace<T>(a: array<T>, key: T -> int)
    modifies a
    ensures a[..] == SortByKey(old(a[..]), key)
  {
    ghost var orig := a[..];
    for i := 0 to a.Length
      invariant a[..i] == SortByKey(orig[..i], key)
      invariant a[i..] == orig[i..]
    {
      assert a[i] == orig[i];
      InsertLast(a, i, key);
      assert orig[..i + 1][..i] == orig[..i];
    }
    assert a[..] == a[..a.Length];
    assert orig == orig[..a.Length];
  }

  // ---------------------------------------------------------------------------
  // The two-index walk

  /** The pairs on which f is called, walking a from i and b from j. */
  function Walk<T, U>(a: seq<T>, b: seq<U>, ka: T -> int, kb: U -> int, i: nat, j: nat): (r: seq<(nat, nat)>)
    requires i <= |a| && j <= |b|
    ensures forall c :: c in r ==> i <= c.0 < |a| && j <= c.1 < |b| && ka(a[c.0]) == kb(b[c.1])
    decreases |a| - i + |b| - j
  {
    if i == |a| || j == |b| then []
    else if ka(a[i]) < kb(b[j]) then Walk(a, b, ka, kb, i + 1, j)
    else if ka(a[i]) > kb(b[j]) then Walk(a, b, ka, kb, i, j + 1)
    else [(i, j)] + Walk(a, b, ka, kb, i + 1, j + 1)
  }

  /** The loop of zipById on the already sorted arrays. */
  method WalkLoop<T, U>(first: array<T>, second: array<U>, ka: T -> int, kb: U -> int) returns (calls: seq<(nat, nat)>)
    ensures calls == Walk(first[..], second[..], ka, kb, 0, 0)
  {
    var i, j := 0, 0;
    calls := [];
    while i < first.Length && j < second.Length
      invariant i <= first.Length && j <= second.Length
      invariant calls + Walk(first[..], second[..], ka, kb, i, j) == Walk(first[..], second[..], ka, kb, 0, 0)
      decreases first.Length - i + second.Length - j
    {
      if ka(first[i]) < kb(second[j]) {
        i := i + 1;
        continue;
      }
      if ka(first[i]) > kb(second[j]) {
        j := j + 1;
        continue;
      }
      calls := calls + [(i, j)];
      i := i + 1;
      j := j + 1;
    }
  }

  /** zipById: sort both sides by id in place, then walk them. */
  method ZipById<T, U>(first: array<T>, second: array<U>, ka: T -> int, kb: U -> int) returns (calls: seq<(nat, nat)>)
    requires first != second
    modifies first, second
    ensures first[..] == SortByKey(old(first[..]), ka)
    ensures second[..] == SortByKey(old(second[..]), kb)
    ensures calls == Walk(first[..], second[..], ka, kb, 0, 0)
  {
    SortInPlace(first, ka);
    SortInPlace(second, kb);
    calls := WalkLoop(first, second, ka, kb);
  }

  // ---------------------------------------------------------------------------
  // What the walk promises

  ghost predicate Increasing(w: seq<(nat, nat)>)
  {
    forall p, q :: 0 <= p < q < |w| ==> w[p].0 < w[q].0 && w[p].1 < w[q].1
  }

  /** Both indices strictly increase from one call to the next, so no element is passed twice. */
  lemma {:induction false} WalkIncreasing<T, U>(a: seq<T>, b: seq<U>, ka: T -> int, kb: U -> int, i: nat, j: nat)
    requires i <= |a| && j <= |b|
    ensures Increasing(Walk(a, b, ka, kb, i, j))
    decreases |a| - i + |b| - j
  {
    if i < |a| && j < |b| {
      if ka(a[i]) < kb(b[j]) {
        WalkIncreasing(a, b, ka, kb, i + 1, j);
        assert Walk(a, b, ka, kb, i, j) == Walk(a, b, ka, kb, i + 1, j);
      } else if ka(a[i]) > kb(b[j]) {
        WalkIncreasing(a, b, ka, kb, i, j + 1);
        assert Walk(a, b, ka, kb, i, j) == Walk(a, b, ka, kb, i, j + 1);
      } else {
        WalkIncreasing(a, b, ka, kb, i + 1, j + 1);
        var w := Walk(a, b, ka, kb, i + 1, j + 1);
        assert Walk(a, b, ka, kb, i, j) == [(i, j)] + w;
        forall q | 0 <= q < |w|
          ensures i < w[q].0 && j < w[q].1
        {
          assert w[q] in w;
        }
      }
    }
  }

  /** There are no more calls than elements on either side. */
  lemma {:induction false} WalkBounded<T, U>(a: seq<T>, b: seq<U>, ka: T -> int, kb: U -> int, i: nat, j: nat)
    requires i <= |a| && j <= |b|
    ensures |Walk(a, b, ka, kb, i, j)| <= |a| - i && |Walk(a, b, ka, kb, i, j)| <= |b| - j
    decreases |a| - i + |b| - j
  {
    if i < |a| && j < |b| {
      if ka(a[i]) < kb(b[j]) {
        WalkBounded(a, b, ka, kb, i + 1, j);
      } else if ka(a[i]) > kb(b[j]) {
        WalkBounded(a, b, ka, kb, i, j + 1);
      } else {
        WalkBounded(a, b, ka, kb, i + 1, j + 1);
      }
    }
  }

  /** s ordered by strictly increasing key: sorted with unique ids. */
  ghost predicate StrictlySorted<T>(s: seq<T>, key: T -> int)
  {
    forall p, q :: 0 <= p < q < |s| ==> key(s[p]) < key(s[q])
  }

  ghost function KeysFrom<T>(s: seq<T>, key: T -> int, i: nat): set<int>
  {
    set k | i <= k < |s| :: key(s[k])
  }

  /** With unique ids on each (sorted) side, every id present on both sides gets a call: the
      call c handed back. */
  lemma {:induction false} WalkCoversCommonIds<T, U>(a: seq<T>, b: seq<U>, ka: T -> int, kb: U -> int, i: nat, j: nat, p: nat, q: nat)
    returns (c: (nat, nat))
    requires StrictlySorted(a, ka) && StrictlySorted(b, kb)
    requires i <= p < |a| && j <= q < |b| && ka(a[p]) == kb(b[q])
    ensures c in Walk(a, b, ka, kb, i, j) && ka(a[c.0]) == ka(a[p])
    decreases |a| - i + |b| - j
  {
    var w := Walk(a, b, ka, kb, i, j);
    if ka(a[i]) < kb(b[j]) {
      assert p != i by {
        if j < q { assert kb(b[j]) < kb(b[q]); }
      }
      c := WalkCoversCommonIds(a, b, ka, kb, i + 1, j, p, q);
      assert w == Walk(a, b, ka, kb, i + 1, j);
    } else if ka(a[i]) > kb(b[j]) {
      assert q != j by {
        if i < p { assert ka(a[i]) < ka(a[p]); }
      }
      c := WalkCoversCommonIds(a, b, ka, kb, i, j + 1, p, q);
      assert w == Walk(a, b, ka, kb, i, j + 1);
    } else if ka(a[i]) == ka(a[p]) {
      c := (i, j);
      assert w == [(i, j)] + Walk(a, b, ka, kb, i + 1, j + 1);
    } else {
      assert p != i && q != j;
      c := WalkCoversCommonIds(a, b, ka, kb, i + 1, j + 1, p, q);
      assert w == [(i, j)] + Walk(a, b, ka, kb, i + 1, j + 1);
    }
  }

  /** With unique ids on each sorted side, the calls are exactly the common ids, each once,
      in ascending id order; ids on one side only are never passed. */
  lemma ZipByIdCommonIds<T, U>(a: seq<T>, b: seq<U>, ka: T -> int, kb: U -> int)
    requires StrictlySorted(a, ka) && StrictlySorted(b, kb)
    ensures var w := Walk(a, b, ka, kb, 0, 0);
            (set c | c in w :: ka(a[c.0])) == KeysFrom(a, ka, 0) * KeysFrom(b, kb, 0) &&
            forall p, q :: 0 <= p < q < |w| ==> ka(a[w[p].0]) < ka(a[w[q].0])
  {
    var w := Walk(a, b, ka, kb, 0, 0);
    WalkIncreasing(a, b, ka, kb, 0, 0);
    forall id | id in KeysFrom(a, ka, 0) * KeysFrom(b, kb, 0)
      ensures id in (set c | c in w :: ka(a[c.0]))
    {
      var p :| 0 <= p < |a| && ka(a[p]) == id;
      var q :| 0 <= q < |b| && kb(b[q]) == id;
      var c := WalkCoversCommonIds(a, b, ka, kb, 0, 0, p, q);
    }
    forall c | c in w
      ensures ka(a[c.0]) in KeysFrom(a, ka, 0) * KeysFrom(b, kb, 0)
    {
      assert kb(b[c.1]) in KeysFrom(b, kb, 0);
    }
    forall p, q | 0 <= p < q < |w|
      ensures ka(a[w[p].0]) < ka(a[w[q].0])
    {
      assert w[p] in w && w[q] in w;
    }
  }

  /** With unique ids on each sorted side, two elements with the same id are passed to f together. */
  lemma WalkFindsPair<T, U>(a: seq<T>, b: seq<U>, ka: T -> int, kb: U -> int, p: nat, q: nat)
    requires StrictlySorted(a, ka) && StrictlySorted(b, kb)
    requires p < |a| && q < |b| && ka(a[p]) == kb(b[q])
    ensures (p, q) in Walk(a, b, ka, kb, 0, 0)
  {
    var c := WalkCoversCommonIds(a, b, ka, kb, 0, 0, p, q);
    StrictKeyInjective(a, ka, c.0, p);
    StrictKeyInjective(b, kb, c.1, q);
  }

  lemma StrictKeyInjective<T>(s: seq<T>, key: T -> int, i: nat, j: nat)
    requires StrictlySorted(s, key) && i < |s| && j < |s| && key(s[i]) == key(s[j])
    ensures i == j
  {
  }

  // ---------------------------------------------------------------------------
  // Unique ids survive the sort

  /** No two elements share a key. */
  ghost predicate UniqueKeys<T>(s: seq<T>, key: T -> int)
  {
    forall p, q :: 0 <= p < q < |s| ==> key(s[p]) != key(s[q])
  }

  lemma KeysFromSnoc<T>(s: seq<T>, x: T, key: T -> int)
    ensures KeysFrom(s + [x], key, 0) == KeysFrom(s, key, 0) + {key(x)}
  {
    assert forall k :: 0 <= k < |s| ==> (s + [x])[k] == s[k];
    assert (s + [x])[|s|] == x;
  }

  lemma {:induction false} InsertUnique<T>(s: seq<T>, x: T, key: T -> int)
    requires UniqueKeys(s, key) && key(x) !in KeysFrom(s, key, 0)
    ensures UniqueKeys(Insert(s, x, key), key)
    ensures KeysFrom(Insert(s, x, key), key, 0) == KeysFrom(s, key, 0) + {key(x)}
  {
    if s == [] || key(s[|s| - 1]) <= key(x) {
      KeysFromSnoc(s, x, key);
    } else {
      var init, last := s[..|s| - 1], s[|s| - 1];
      assert s == init + [last];
      KeysFromSnoc(init, last, key);
      InsertUnique(init, x, key);
      var r := Insert(init, x, key);
      KeysFromSnoc(r, last, key);
      assert key(last) !in KeysFrom(init, key, 0);
      assert key(last) !in KeysFrom(r, key, 0);
      forall p, q | 0 <= p < q < |r| + 1
        ensures key((r + [last])[p]) != key((r + [last])[q])
      {
        if q == |r| {
          assert key(r[p]) in KeysFrom(r, key, 0);
        }
      }
    }
  }

  /** Sorting keeps the set of keys and their uniqueness, so a vector of unique ids comes
      out strictly ascending. */
  lemma {:induction false} SortByKeyUnique<T>(s: seq<T>, key: T -> int)
    requires UniqueKeys(s, key)
    ensures UniqueKeys(SortByKey(s, key), key)
    ensures KeysFrom(SortByKey(s, key), key, 0) == KeysFrom(s, key, 0)
    ensures StrictlySorted(SortByKey(s, key), key)
  {
    if s != [] {
      var init, last := s[..|s| - 1], s[|s| - 1];
      assert s == init + [last];
      assert UniqueKeys(init, key);
      SortByKeyUnique(init, key);
      KeysFromSnoc(init, last, key);
      assert key(last) !in KeysFrom(init, key, 0);
      InsertUnique(SortByKey(init, key), last, key);
    }
    SortByKeySorted(s, key);
  }

  // ---------------------------------------------------------------------------
  // Folding a callback over the calls

  /** The callback f applied in call order to the first side, each call updating the element
      of the first side it was handed. */
  function FoldCalls<T, U>(a: seq<T>, b: seq<U>, calls: seq<(nat, nat)>, f: (T, U) -> T): (r: seq<T>)
    requires forall c :: c in calls ==> c.0 < |a| && c.1 < |b|
    ensures |r| == |a|
  {
    if calls == [] then a
    else
      var c := calls[|calls| - 1];
      var r := FoldCalls(a, b, calls[..|calls| - 1], f);
      r[c.0 := f(r[c.0], b[c.1])]
  }

  /** With each element of the first side handed over at most once, every called element is f
      of its own value and its partner, and every other element is left as it was. */
  lemma {:induction false} FoldCallsEffect<T, U>(a: seq<T>, b: seq<U>, calls: seq<(nat, nat)>, f: (T, U) -> T)
    requires forall c :: c in calls ==> c.0 < |a| && c.1 < |b|
    requires Increasing(calls)
    ensures forall c :: c in calls ==> FoldCalls(a, b, calls, f)[c.0] == f(a[c.0], b[c.1])
    ensures forall k :: 0 <= k < |a| && (forall c :: c in calls ==> c.0 != k) ==> FoldCalls(a, b, calls, f)[k] == a[k]
  {
    if calls != [] {
      var init, last := calls[..|calls| - 1], calls[|calls| - 1];
      IncreasingInit(calls);
      FoldCallsEffect(a, b, init, f);
      var r := FoldCalls(a, b, init, f);
      assert FoldCalls(a, b, calls, f) == r[last.0 := f(r[last.0], b[last.1])];
      assert r[last.0] == a[last.0];
      forall c | c in calls
        ensures FoldCalls(a, b, calls, f)[c.0] == f(a[c.0], b[c.1])
      {
        if c != last {
          assert c in init;
        }
      }
    }
  }

  /** Dropping the last call keeps the calls increasing, all below the last one, and every call
      is one of them or the last. */
  lemma IncreasingInit(calls: seq<(nat, nat)>)
    requires calls != [] && Increasing(calls)
    ensures var init, last := calls[..|calls| - 1], calls[|calls| - 1];
            Increasing(init) &&
            (forall c :: c in init ==> c in calls && c.0 < last.0) &&
            (forall c :: c in calls ==> c in init || c == last)
  {
    var init, last := calls[..|calls| - 1], calls[|calls| - 1];
    forall c | c in init
      ensures c in calls && c.0 < last.0
    {
      var p :| 0 <= p < |init| && init[p] == c;
      assert calls[p] == c;
    }
    assert calls == init + [last];
  }

  lemma StepKeepsKey<T, U>(f: (T, U) -> T, key: T -> int, a: seq<T>, b: seq<U>, i: nat, j: nat)
    requires forall x, y :: key(f(x, y)) == key(x)
    requires i < |a| && j < |b|
    ensures key(f(a[i], b[j])) == key(a[i])
  {
  }

  /** When f keeps the key, the fold keeps every element's key. */
  lemma {:induction false} FoldCallsKeys<T, U>(a: seq<T>, b: seq<U>, calls: seq<(nat, nat)>, f: (T, U) -> T, key: T -> int)
    requires forall c :: c in calls ==> c.0 < |a| && c.1 < |b|
    requires forall x, y :: key(f(x, y)) == key(x)
    ensures forall k :: 0 <= k < |a| ==> key(FoldCalls(a, b, calls, f)[k]) == key(a[k])
  {
    if calls != [] {
      var c := calls[|calls| - 1];
      assert forall x :: x in calls[..|calls| - 1] ==> x in calls;
      FoldCallsKeys(a, b, calls[..|calls| - 1], f, key);
      var r := FoldCalls(a, b, calls[..|calls| - 1], f);
      assert c in calls;
      StepKeepsKey(f, key, r, b, c.0, c.1);
    }
  }

  /** The callback run over the calls on the first side's array. */
  method ApplyCalls<T, U>(a: array<T>, b: seq<U>, calls: seq<(nat, nat)>, f: (T, U) -> T)
    requires forall c :: c in calls ==> c.0 < a.Length && c.1 < |b|
    modifies a
    ensures a[..] == FoldCalls(old(a[..]), b, calls, f)
  {
    ghost var orig := a[..];
    for k := 0 to |calls|
      invariant a[..] == FoldCalls(orig, b, calls[..k], f)
    {
      assert calls[..k + 1][..k] == calls[..k];
      assert calls[k] in calls;
      a[calls[k].0] := f(a[calls[k].0], b[calls[k].1]);
    }
    assert calls[..|calls|] == calls;
  }
}
