// The removal loop shared by updateLogic in tasks/task4/server.cpp and
// tasks/task6/server.cpp: walk the entity vector with a manual index; a dead
// entity (size below 1e-3) is swapped with the back and popped, and the index
// stays put so the moved-in entity is examined next; otherwise the index
// advances. The float test is a parameter.
module Removal {
  import opened Types

  /** The loop from index i on: the surviving vector and the removed entities, in removal order. */
  function SwapPopFrom(s: seq<Entity>, i: nat, dead: F32 -> bool): (seq<Entity>, seq<Entity>)
    decreases |s| - i
  {
    if i >= |s| then (s, [])
    else if dead(s[i].size) then
      var rest := SwapPopFrom(s[i := s[|s| - 1]][..|s| - 1], i, dead);
      (rest.0, [s[i]] + rest.1)
    else SwapPopFrom(s, i + 1, dead)
  }

  /** Swapping position i with the back and popping takes exactly s[i] out of s[i..]. */
  lemma SwapPopStep(s: seq<Entity>, i: nat)
    requires i < |s|
    ensures var t := s[i := s[|s| - 1]][..|s| - 1];
            t[..i] == s[..i] && multiset(t[i..]) + multiset{s[i]} == multiset(s[i..])
  {
    var t := s[i := s[|s| - 1]][..|s| - 1];
    assert t[..i] == s[..i];
    if i < |s| - 1 {
      assert s[i..] == [s[i]] + s[i + 1..|s| - 1] + [s[|s| - 1]];
      assert t[i..] == [s[|s| - 1]] + s[i + 1..|s| - 1];
    } else {
      assert t[i..] == [];
      assert s[i..] == [s[i]];
    }
  }

  /** kept and removed are what the loop leaves from index i on: the prefix it has passed, and
      of the rest exactly the live entities kept and exactly the dead ones removed. */
  ghost predicate SplitFrom(s: seq<Entity>, i: nat, kept: seq<Entity>, removed: seq<Entity>, dead: F32 -> bool)
  {
    i <= |kept| && i <= |s| && kept[..i] == s[..i] &&
    (forall e :: multiset(kept[i..])[e] == if dead(e.size) then 0 else multiset(s[i..])[e]) &&
    (forall e :: multiset(removed)[e] == if dead(e.size) then multiset(s[i..])[e] else 0)
  }

  /** The loop keeps the prefix it has passed, and of the rest keeps exactly the live entities
      and removes exactly the dead ones (the order of survivors may change). */
  lemma {:induction false} SwapPopFromSplits(s: seq<Entity>, i: nat, dead: F32 -> bool)
    requires i <= |s|
    ensures SplitFrom(s, i, SwapPopFrom(s, i, dead).0, SwapPopFrom(s, i, dead).1, dead)
    decreases |s| - i
  {
    if i == |s| {
      SplitAtEnd(s, dead);
    } else if dead(s[i].size) {
      var t := s[i := s[|s| - 1]][..|s| - 1];
      SwapPopFromSplits(t, i, dead);
      var rest := SwapPopFrom(t, i, dead);
      SplitDeadStep(s, i, dead, rest.0, rest.1);
      assert SwapPopFrom(s, i, dead) == (rest.0, [s[i]] + rest.1);
    } else {
      SwapPopFromSplits(s, i + 1, dead);
      var rest := SwapPopFrom(s, i + 1, dead);
      SplitLiveStep(s, i, dead, rest.0, rest.1);
      assert SwapPopFrom(s, i, dead) == rest;
    }
  }

  /** Past the end the loop keeps everything and removes nothing. */
  lemma SplitAtEnd(s: seq<Entity>, dead: F32 -> bool)
    ensures SplitFrom(s, |s|, SwapPopFrom(s, |s|, dead).0, SwapPopFrom(s, |s|, dead).1, dead)
  {
    assert SwapPopFrom(s, |s|, dead) == (s, []);
    assert s[|s|..] == [];
  }

  /** A live entity at i stays where it is. */
  lemma SplitLiveStep(s: seq<Entity>, i: nat, dead: F32 -> bool, kept: seq<Entity>, removed: seq<Entity>)
    requires i < |s| && !dead(s[i].size) && SplitFrom(s, i + 1, kept, removed, dead)
    requires kept[i] == s[i]
    ensures SplitFrom(s, i, kept, removed, dead)
  {
    assert kept[i..] == [s[i]] + kept[i + 1..];
    assert s[i..] == [s[i]] + s[i + 1..];
    assert kept[..i] == kept[..i + 1][..i];
  }

  /** A dead entity at i is replaced by the back and removed. */
  lemma SplitDeadStep(s: seq<Entity>, i: nat, dead: F32 -> bool, kept: seq<Entity>, removed: seq<Entity>)
    requires i < |s| && dead(s[i].size)
    requires SplitFrom(s[i := s[|s| - 1]][..|s| - 1], i, kept, removed, dead)
    ensures SplitFrom(s, i, kept, [s[i]] + removed, dead)
  {
    SwapPopStep(s, i);
  }

  /** Over the whole vector: a live entity survives as often as it occurred, a dead one never
      survives, and every dead occurrence is removed. */
  lemma RemoveDeadExact(s: seq<Entity>, dead: F32 -> bool)
    ensures var (kept, removed) := SwapPopFrom(s, 0, dead);
            (forall e :: multiset(kept)[e] == if dead(e.size) then 0 else multiset(s)[e]) &&
            (forall e :: multiset(removed)[e] == if dead(e.size) then multiset(s)[e] else 0) &&
            |kept| + |removed| == |s|
  {
    SwapPopFromSplits(s, 0, dead);
    var (kept, removed) := SwapPopFrom(s, 0, dead);
    assert kept[0..] == kept && s[0..] == s;
    assert multiset(kept) + multiset(removed) == multiset(s);
  }

  /** The removal loop over a vector of entities: the survivors and the removed entities. */
  method RemoveDead(entities: seq<Entity>, dead: F32 -> bool) returns (kept: seq<Entity>, removed: seq<Entity>)
    ensures (kept, removed) == SwapPopFrom(entities, 0, dead)
  {
    kept := entities;
    removed := [];
    var i := 0;
    assert removed + SwapPopFrom(kept, i, dead).1 == SwapPopFrom(kept, i, dead).1;
    while i < |kept|
      invariant i <= |kept|
      invariant SwapPopFrom(entities, 0, dead) ==
                (SwapPopFrom(kept, i, dead).0, removed + SwapPopFrom(kept, i, dead).1)
      decreases |kept| - i
    {
      if dead(kept[i].size) {
        ghost var rest := SwapPopFrom(kept[i := kept[|kept| - 1]][..|kept| - 1], i, dead);
        assert removed + ([kept[i]] + rest.1) == (removed + [kept[i]]) + rest.1;
        removed := removed + [kept[i]];
        kept := kept[i := kept[|kept| - 1]][..|kept| - 1];
      } else {
        i := i + 1;
      }
    }
    assert removed + [] == removed;
  }
}
