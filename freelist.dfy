/** The free list of the shared instrumentation arena, seen as pure data.

    The arena is a fixed array of slots; each slot has an index-valued `next`
    link, with NULL (-1) standing for the C null pointer. `links` is the
    sequence of those `next` values, slot by slot. `Chain(links, h, l)` says
    that following `next` from `h` visits exactly the slots of `l`, in order,
    without repeating one, and then reaches NULL.
 */
module FreeList {

  /** The index that stands for a NULL slot pointer. */
  const NULL: int := -1

  ghost predicate Chain(links: seq<int>, h: int, l: seq<int>)
    decreases |l|
  {
    if l == [] then h == NULL
    else h == l[0] && 0 <= h < |links| && h !in l[1..] && Chain(links, links[h], l[1..])
  }

  /** The indices lo, lo + 1, ..., hi - 1. */
  function Range(lo: int, hi: int): (r: seq<int>)
    decreases hi - lo
  {
    if lo >= hi then [] else [lo] + Range(lo + 1, hi)
  }

  /** The links a fresh arena of n slots gets: slot i points at slot i + 1, the last one at NULL. */
  ghost predicate LinkedInOrder(links: seq<int>)
  {
    |links| > 0 &&
    (forall k :: 0 <= k < |links| - 1 ==> links[k] == k + 1) &&
    links[|links| - 1] == NULL
  }

  /** The chain from a head is determined by the links: the free list is a
      function of the arena's real state, not extra information. */
  lemma {:induction false} ChainDeterministic(links: seq<int>, h: int, l1: seq<int>, l2: seq<int>)
    requires Chain(links, h, l1) && Chain(links, h, l2)
    ensures l1 == l2
    decreases |l1|
  {
    if l1 != [] && l2 != [] {
      ChainDeterministic(links, links[h], l1[1..], l2[1..]);
    }
  }

  /** Every slot on a chain lies inside the arena. */
  lemma {:induction false} ChainInArena(links: seq<int>, h: int, l: seq<int>)
    requires Chain(links, h, l)
    ensures forall x :: x in l ==> 0 <= x < |links|
    decreases |l|
  {
    if l != [] {
      ChainInArena(links, links[h], l[1..]);
      assert forall x :: x in l ==> x == l[0] || x in l[1..];
    }
  }

  /** Rewriting the link of a slot that is not on the chain leaves the chain as it is. */
  lemma {:induction false} ChainUnaffected(links: seq<int>, i: int, v: int, h: int, l: seq<int>)
    requires 0 <= i < |links| && i !in l
    requires Chain(links, h, l)
    ensures Chain(links[i := v], h, l)
    decreases |l|
  {
    if l != [] {
      ChainUnaffected(links, i, v, links[h], l[1..]);
    }
  }

  /** Taking the head off (InstrAlloc): the rest of the list starts at the old
      head's link, whatever is then written into the old head's own link. */
  lemma ChainPop(links: seq<int>, h: int, l: seq<int>, v: int)
    requires Chain(links, h, l) && l != []
    ensures Chain(links[h := v], links[h], l[1..])
  {
    ChainUnaffected(links, h, v, links[h], l[1..]);
  }

  /** Pushing a slot that is not on the list (InstrFree): linking it to the old
      head and making it the head gives the old list with the slot in front. */
  lemma ChainPush(links: seq<int>, h: int, l: seq<int>, i: int)
    requires Chain(links, h, l)
    requires 0 <= i < |links| && i !in l
    ensures Chain(links[i := h], i, [i] + l)
  {
    ChainUnaffected(links, i, h, h, l);
    assert ([i] + l)[1..] == l;
  }

  /** A freshly linked arena: from any slot i the chain runs through i, ..., n - 1 and ends in NULL. */
  lemma {:induction false} ChainOfLinkedArena(links: seq<int>, i: int)
    requires LinkedInOrder(links)
    requires 0 <= i < |links|
    ensures Chain(links, i, Range(i, |links|))
    decreases |links| - i
  {
    if i + 1 < |links| {
      ChainOfLinkedArena(links, i + 1);
    }
    RangeFacts(i + 1, |links|);
    assert Range(i, |links|)[1..] == Range(i + 1, |links|);
  }

  lemma {:induction false} RangeFacts(lo: int, hi: int)
    ensures |Range(lo, hi)| == if lo <= hi then hi - lo else 0
    ensures forall x :: x in Range(lo, hi) <==> lo <= x < hi
    ensures forall k :: 0 <= k < |Range(lo, hi)| ==> Range(lo, hi)[k] == lo + k
    decreases hi - lo
  {
    if lo < hi {
      RangeFacts(lo + 1, hi);
    }
  }

  /** A chain never holds more slots than the arena has: the count of free
      slots is at most the capacity, so in_use never goes negative. */
  lemma ChainFitsArena(links: seq<int>, h: int, l: seq<int>)
    requires Chain(links, h, l)
    ensures |l| <= |links|
  {
    var elems := set x | x in l;
    var arena := set x | x in Range(0, |links|);
    ChainElements(links, h, l);
    ChainInArena(links, h, l);
    RangeFacts(0, |links|);
    RangeElements(0, |links|);
    forall x | x in elems
      ensures x in arena
    {
      assert 0 <= x < |links|;
    }
    SubsetSize(elems, arena);
  }

  lemma SubsetSize(a: set<int>, b: set<int>)
    requires a <= b
    ensures |a| <= |b|
  {
    assert b == a + (b - a);
    assert a * (b - a) == {};
  }

  /** The slots on a chain are pairwise distinct: the chain has as many elements as it has positions. */
  lemma {:induction false} ChainElements(links: seq<int>, h: int, l: seq<int>)
    requires Chain(links, h, l)
    ensures |set x | x in l| == |l|
    decreases |l|
  {
    if l != [] {
      ChainElements(links, links[h], l[1..]);
      assert (set x | x in l) == {l[0]} + (set x | x in l[1..]);
    }
  }

  lemma {:induction false} RangeElements(lo: int, hi: int)
    ensures |set x | x in Range(lo, hi)| == |Range(lo, hi)|
    decreases hi - lo
  {
    if lo < hi {
      var rest := Range(lo + 1, hi);
      RangeElements(lo + 1, hi);
      RangeFacts(lo + 1, hi);
      assert (set x | x in Range(lo, hi)) == {lo} + (set x | x in rest);
    }
  }
}
