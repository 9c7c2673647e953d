/** kern/kmalloc.c: the storage allocator of section 8.7 of Kernighan and Ritchie, "The C Programming
Language", 2nd edition, on pages from kalloc.

Addresses count header-sized units of 16 bytes; a page is 256 units.  A block is a header unit followed by its
payload.  `ptr` and `size` are the fields of the headers in memory.
*/
module Kmalloc {
  import opened Common

  const PAGE := 256

  /** Two blocks do not overlap. */
  predicate Apart(a: nat, m: nat, b: nat, n: nat) {
    a + m <= b || b + n <= a
  }

  predicate Sized(xs: seq<nat>, size: map<nat, nat>) {
    forall i | 0 <= i < |xs| :: xs[i] in size
  }

  /** Units in all the blocks xs. */
  function Sum(xs: seq<nat>, size: map<nat, nat>): (r: nat)
    requires Sized(xs, size)
  {
    if xs == [] then 0 else Sum(xs[..|xs| - 1], size) + size[xs[|xs| - 1]]
  }

  lemma {:induction false} SumConcat(xs: seq<nat>, ys: seq<nat>, size: map<nat, nat>)
    requires Sized(xs, size) && Sized(ys, size)
    ensures Sized(xs + ys, size) && Sum(xs + ys, size) == Sum(xs, size) + Sum(ys, size)
  {
    if ys == [] {
      assert xs + ys == xs;
    } else {
      assert (xs + ys)[..|xs + ys| - 1] == xs + ys[..|ys| - 1];
      SumConcat(xs, ys[..|ys| - 1], size);
    }
  }

  lemma {:induction false} SumFrame(xs: seq<nat>, size: map<nat, nat>, size': map<nat, nat>)
    requires Sized(xs, size) && Sized(xs, size')
    requires forall i | 0 <= i < |xs| :: size'[xs[i]] == size[xs[i]]
    ensures Sum(xs, size') == Sum(xs, size)
  {
    if xs != [] {
      SumFrame(xs[..|xs| - 1], size, size');
    }
  }

  /** Splitting a list at one of its elements. */
  lemma SumSplit(xs: seq<nat>, i: nat, size: map<nat, nat>)
    requires Sized(xs, size) && i < |xs|
    ensures Sum(xs, size) == Sum(xs[..i], size) + size[xs[i]] + Sum(xs[i + 1..], size)
  {
    assert xs == (xs[..i] + [xs[i]]) + xs[i + 1..];
    SumConcat(xs[..i], [xs[i]], size);
    SumConcat(xs[..i] + [xs[i]], xs[i + 1..], size);
    assert Sum([xs[i]], size) == Sum([], size) + size[xs[i]];
  }

  /** The free list: base first, then free blocks at ascending addresses.  Neighbours leave a gap, so blocks
      neither overlap nor touch: everything that could be merged has been. */
  predicate Ascending(base: nat, nodes: seq<nat>, size: map<nat, nat>) {
    && |nodes| >= 1 && nodes[0] == base
    && Sized(nodes, size) && size[base] == 0
    && (forall i | 1 <= i < |nodes| :: size[nodes[i]] > 0)
    && (forall i, j | 0 <= i < j < |nodes| :: nodes[i] + size[nodes[i]] < nodes[j])
  }

  function Succ(i: nat, k: nat): (j: nat)
    requires i < k
    ensures j < k
  {
    if i + 1 < k then i + 1 else 0
  }

  /** The links form one ring through the nodes. */
  predicate Ring(nodes: seq<nat>, ptr: map<nat, nat>) {
    && (forall i | 0 <= i < |nodes| :: nodes[i] in ptr)
    && (forall i {:trigger ptr[nodes[i]]} | 0 <= i < |nodes| :: ptr[nodes[i]] == nodes[Succ(i, |nodes|)])
  }

  /** Allocated blocks do not overlap each other or a free block. */
  predicate LivesApart(nodes: seq<nat>, lives: seq<nat>, size: map<nat, nat>) {
    && Sized(nodes, size) && Sized(lives, size)
    && (forall i | 0 <= i < |lives| :: size[lives[i]] > 0)
    && (forall i, j | 0 <= i < j < |lives| :: Apart(lives[i], size[lives[i]], lives[j], size[lives[j]]))
    && (forall i, j | 0 <= i < |lives| && 1 <= j < |nodes| :: Apart(lives[i], size[lives[i]], nodes[j], size[nodes[j]]))
  }

  /** Every unit of the block lies in a page of got. */
  ghost predicate InPages(a: nat, n: nat, got: set<nat>) {
    forall u | a <= u < a + n :: u / PAGE in got
  }

  ghost predicate AllInPages(xs: seq<nat>, size: map<nat, nat>, got: set<nat>) {
    && Sized(xs, size)
    && forall i | 0 <= i < |xs| :: InPages(xs[i], size[xs[i]], got)
  }

  /** base lies below every page. */
  predicate BaseBelow(base: nat, got: set<nat>) {
    forall p | p in got :: base < p * PAGE
  }

  ghost predicate Heap(base: nat, nodes: seq<nat>, lives: seq<nat>, ptr: map<nat, nat>, size: map<nat, nat>, got: set<nat>) {
    && Ascending(base, nodes, size)
    && Ring(nodes, ptr)
    && LivesApart(nodes, lives, size)
    && AllInPages(nodes, size, got) && AllInPages(lives, size, got)
    && BaseBelow(base, got)
    && Sum(nodes, size) + Sum(lives, size) == PAGE * |got|
  }

  // ---------------------------------------------------------------- returning a block

  /** Block bp of n units can be put between nodes T and T + 1. */
  predicate FitsAfter(nodes: seq<nat>, size: map<nat, nat>, T: nat, bp: nat, n: nat) {
    && T < |nodes| && Sized(nodes, size) && n > 0
    && nodes[T] + size[nodes[T]] <= bp
    && (T + 1 < |nodes| ==> bp + n <= nodes[T + 1])
  }

  predicate MergesUp(nodes: seq<nat>, T: nat, bp: nat, n: nat)
    requires T < |nodes|
  {
    T + 1 < |nodes| && bp + n == nodes[T + 1]
  }

  predicate MergesDown(nodes: seq<nat>, size: map<nat, nat>, T: nat, bp: nat)
    requires T < |nodes| && Sized(nodes, size)
  {
    nodes[T] + size[nodes[T]] == bp
  }

  /** The free list after kmfree. */
  function FreedNodes(nodes: seq<nat>, size: map<nat, nat>, T: nat, bp: nat, n: nat): (r: seq<nat>)
    requires T < |nodes| && Sized(nodes, size)
  {
    nodes[..T + 1] + (if MergesDown(nodes, size, T, bp) then [] else [bp])
    + nodes[Rest(nodes, T, bp, n)..]
  }

  /** The sizes after kmfree. */
  function FreedSize(nodes: seq<nat>, size: map<nat, nat>, T: nat, bp: nat, n: nat): (r: map<nat, nat>)
    requires T < |nodes| && Sized(nodes, size)
  {
    var n1 := if MergesUp(nodes, T, bp, n) then n + size[nodes[T + 1]] else n;
    var size1 := size[bp := n1];
    if MergesDown(nodes, size, T, bp) then size1[nodes[T] := size[nodes[T]] + n1] else size1
  }

  /** Node number of the old list that follows the place of bp in the new one. */
  function Rest(nodes: seq<nat>, T: nat, bp: nat, n: nat): (q: nat)
    requires T < |nodes|
    ensures T < q <= |nodes|
  {
    if MergesUp(nodes, T, bp, n) then T + 2 else T + 1
  }

  /** End of the block that bp becomes part of. */
  function FreedEnd(nodes: seq<nat>, size: map<nat, nat>, T: nat, bp: nat, n: nat): (e: nat)
    requires T < |nodes| && Sized(nodes, size)
  {
    bp + n + if MergesUp(nodes, T, bp, n) then size[nodes[T + 1]] else 0
  }

  /** What the i-th entry of the new list is and where its block ends. */
  lemma FreedAt(base: nat, nodes: seq<nat>, size: map<nat, nat>, T: nat, bp: nat, n: nat, i: nat)
    requires Ascending(base, nodes, size) && FitsAfter(nodes, size, T, bp, n) && bp > base
    requires i < |FreedNodes(nodes, size, T, bp, n)|
    ensures var x, size' := FreedNodes(nodes, size, T, bp, n)[i], FreedSize(nodes, size, T, bp, n);
      var lo := MergesDown(nodes, size, T, bp);
      var q := i - T - (if lo then 1 else 2) + Rest(nodes, T, bp, n);
      && x in size'
      && (i < T ==> x == nodes[i] && size'[x] == size[x])
      && (i == T ==> x == nodes[T] && x + size'[x] == if lo then FreedEnd(nodes, size, T, bp, n) else x + size[x])
      && (i == T + 1 && !lo ==> x == bp && x + size'[x] == FreedEnd(nodes, size, T, bp, n))
      && (i > T + (if lo then 0 else 1) ==> T < q < |nodes| && x == nodes[q] && size'[x] == size[x])
  {
    FreedIndex(nodes, size, T, bp, n, i);
    hide FreedNodes;
    assert nodes[T] < bp;
    var lo := MergesDown(nodes, size, T, bp);
    if i > T + (if lo then 0 else 1) {
      var q := i - T - (if lo then 1 else 2) + Rest(nodes, T, bp, n);
      assert bp < nodes[q];
    } else if i < T {
      assert nodes[i] < nodes[T];
    }
  }

  lemma FreedIndex(nodes: seq<nat>, size: map<nat, nat>, T: nat, bp: nat, n: nat, i: nat)
    requires T < |nodes| && Sized(nodes, size)
    requires i < |FreedNodes(nodes, size, T, bp, n)|
    ensures var lo := MergesDown(nodes, size, T, bp);
      var q := i - T - (if lo then 1 else 2) + Rest(nodes, T, bp, n);
      FreedNodes(nodes, size, T, bp, n)[i] ==
        if i <= T then nodes[i] else if i == T + 1 && !lo then bp else nodes[q]
  {
  }

  /** Blocks before the place of bp end before it, blocks after it start after it. */
  lemma FreedOrder(base: nat, nodes: seq<nat>, size: map<nat, nat>, T: nat, bp: nat, n: nat, q: nat)
    requires Ascending(base, nodes, size) && FitsAfter(nodes, size, T, bp, n) && q < |nodes|
    ensures q < T ==> nodes[q] + size[nodes[q]] < nodes[T] <= bp
    ensures q >= Rest(nodes, T, bp, n) ==> FreedEnd(nodes, size, T, bp, n) < nodes[q]
  {
  }

  lemma FreedAscending(base: nat, nodes: seq<nat>, size: map<nat, nat>, T: nat, bp: nat, n: nat)
    requires Ascending(base, nodes, size) && FitsAfter(nodes, size, T, bp, n) && bp > base
    ensures Ascending(base, FreedNodes(nodes, size, T, bp, n), FreedSize(nodes, size, T, bp, n))
  {
    var nodes', size' := FreedNodes(nodes, size, T, bp, n), FreedSize(nodes, size, T, bp, n);
    var lo := MergesDown(nodes, size, T, bp);
    var r := Rest(nodes, T, bp, n) - T - (if lo then 1 else 2);
    forall i | 0 <= i < |nodes'|
      ensures nodes'[i] in size' && (i >= 1 ==> size'[nodes'[i]] > 0) && (i == 0 ==> nodes'[0] == base && size'[base] == 0)
    {
      FreedAt(base, nodes, size, T, bp, n, i);
    }
    forall i, j | 0 <= i < j < |nodes'| ensures nodes'[i] + size'[nodes'[i]] < nodes'[j] {
      FreedAt(base, nodes, size, T, bp, n, i);
      FreedAt(base, nodes, size, T, bp, n, j);
      if i < T { FreedOrder(base, nodes, size, T, bp, n, i); }
      if j > T + (if lo then 0 else 1) { FreedOrder(base, nodes, size, T, bp, n, j + r); }
    }
  }

  /** The links after kmfree. */
  function FreedPtr(nodes: seq<nat>, size: map<nat, nat>, ptr: map<nat, nat>, T: nat, bp: nat, n: nat): (r: map<nat, nat>)
    requires T < |nodes| && Sized(nodes, size) && Ring(nodes, ptr)
  {
    var next := nodes[Succ(T, |nodes|)];
    var after := if MergesUp(nodes, T, bp, n) then ptr[next] else next;
    ptr[bp := after][nodes[T] := if MergesDown(nodes, size, T, bp) then after else bp]
  }

  lemma FreedRing(base: nat, nodes: seq<nat>, size: map<nat, nat>, ptr: map<nat, nat>, T: nat, bp: nat, n: nat)
    requires Ascending(base, nodes, size) && FitsAfter(nodes, size, T, bp, n) && bp > base && Ring(nodes, ptr)
    ensures Ring(FreedNodes(nodes, size, T, bp, n), FreedPtr(nodes, size, ptr, T, bp, n))
  {
    var nodes', ptr' := FreedNodes(nodes, size, T, bp, n), FreedPtr(nodes, size, ptr, T, bp, n);
    forall i | 0 <= i < |nodes'| ensures nodes'[i] in ptr' && ptr'[nodes'[i]] == nodes'[Succ(i, |nodes'|)] {
      FreedRingAt(base, nodes, size, ptr, T, bp, n, i);
      FreedSucc(nodes, size, T, bp, n, i);
    }
  }

  lemma FreedLength(nodes: seq<nat>, size: map<nat, nat>, T: nat, bp: nat, n: nat)
    requires T < |nodes| && Sized(nodes, size)
    ensures |FreedNodes(nodes, size, T, bp, n)| ==
      T + 1 + (if MergesDown(nodes, size, T, bp) then 0 else 1) + |nodes| - Rest(nodes, T, bp, n)
  {
  }

  /** The node that follows bp, or the block bp has become part of. */
  function After(nodes: seq<nat>, T: nat, bp: nat, n: nat): (x: nat)
    requires T < |nodes|
  {
    var r := Rest(nodes, T, bp, n);
    if r < |nodes| then nodes[r] else nodes[0]
  }

  lemma AfterIs(nodes: seq<nat>, ptr: map<nat, nat>, T: nat, bp: nat, n: nat)
    requires T < |nodes| && Ring(nodes, ptr)
    ensures var next := nodes[Succ(T, |nodes|)];
      (if MergesUp(nodes, T, bp, n) then ptr[next] else next) == After(nodes, T, bp, n)
  {
    var next := nodes[Succ(T, |nodes|)];
    assert ptr[next] == nodes[Succ(Succ(T, |nodes|), |nodes|)];
  }

  /** bp is a new address and no node appears twice. */
  lemma FreedDistinct(base: nat, nodes: seq<nat>, size: map<nat, nat>, T: nat, bp: nat, n: nat, q: nat)
    requires Ascending(base, nodes, size) && FitsAfter(nodes, size, T, bp, n) && bp > base && q < |nodes|
    ensures nodes[q] != bp && (q != T ==> nodes[q] != nodes[T])
  {
    assert q < T ==> nodes[q] < nodes[T] <= bp;
    assert q > T ==> bp < nodes[q] && nodes[T] < nodes[q];
  }

  /** What follows an entry of the new list that lies before bp's place, in it, or after it. */
  lemma FreedSucc(nodes: seq<nat>, size: map<nat, nat>, T: nat, bp: nat, n: nat, i: nat)
    requires T < |nodes| && Sized(nodes, size)
    requires i < |FreedNodes(nodes, size, T, bp, n)|
    ensures var nodes' := FreedNodes(nodes, size, T, bp, n);
      nodes'[Succ(i, |nodes'|)] == FollowerAt(nodes, size, T, bp, n, i)
  {
    FreedLength(nodes, size, T, bp, n);
    FreedIndex(nodes, size, T, bp, n, i);
    FreedIndex(nodes, size, T, bp, n, Succ(i, |FreedNodes(nodes, size, T, bp, n)|));
  }

  function FollowerAt(nodes: seq<nat>, size: map<nat, nat>, T: nat, bp: nat, n: nat, i: nat): (x: nat)
    requires T < |nodes| && Sized(nodes, size) && i < |FreedNodes(nodes, size, T, bp, n)|
  {
    var lo := MergesDown(nodes, size, T, bp);
    var q := i - T - (if lo then 1 else 2) + Rest(nodes, T, bp, n);
    if i < T then nodes[i + 1]
    else if i == T then if lo then After(nodes, T, bp, n) else bp
    else if i == T + 1 && !lo then After(nodes, T, bp, n)
    else nodes[Succ(q, |nodes|)]
  }

  /** A link of a node other than T is as before. */
  lemma OtherLink(base: nat, nodes: seq<nat>, size: map<nat, nat>, ptr: map<nat, nat>, T: nat, bp: nat, n: nat, q: nat)
    requires Ascending(base, nodes, size) && FitsAfter(nodes, size, T, bp, n) && bp > base && Ring(nodes, ptr)
    requires q < |nodes| && q != T
    ensures nodes[q] in FreedPtr(nodes, size, ptr, T, bp, n)
    ensures FreedPtr(nodes, size, ptr, T, bp, n)[nodes[q]] == nodes[Succ(q, |nodes|)]
  {
    FreedDistinct(base, nodes, size, T, bp, n, q);
    assert ptr[nodes[q]] == nodes[Succ(q, |nodes|)];
  }

  lemma PlaceLinks(base: nat, nodes: seq<nat>, size: map<nat, nat>, ptr: map<nat, nat>, T: nat, bp: nat, n: nat)
    requires Ascending(base, nodes, size) && FitsAfter(nodes, size, T, bp, n) && bp > base && Ring(nodes, ptr)
    ensures var ptr' := FreedPtr(nodes, size, ptr, T, bp, n);
      && bp in ptr' && ptr'[bp] == After(nodes, T, bp, n)
      && nodes[T] in ptr'
      && ptr'[nodes[T]] == if MergesDown(nodes, size, T, bp) then After(nodes, T, bp, n) else bp
  {
    AfterIs(nodes, ptr, T, bp, n);
    FreedDistinct(base, nodes, size, T, bp, n, T);
  }

  lemma FreedRingAt(base: nat, nodes: seq<nat>, size: map<nat, nat>, ptr: map<nat, nat>, T: nat, bp: nat, n: nat, i: nat)
    requires Ascending(base, nodes, size) && FitsAfter(nodes, size, T, bp, n) && bp > base && Ring(nodes, ptr)
    requires T < |nodes| && Sized(nodes, size) && i < |FreedNodes(nodes, size, T, bp, n)|
    ensures var x, ptr' := FreedNodes(nodes, size, T, bp, n)[i], FreedPtr(nodes, size, ptr, T, bp, n);
      x in ptr' && ptr'[x] == FollowerAt(nodes, size, T, bp, n, i)
  {
    hide FreedNodes, FreedPtr, After, Ascending, FitsAfter, Ring;
    var lo, r := MergesDown(nodes, size, T, bp), Rest(nodes, T, bp, n);
    FreedLength(nodes, size, T, bp, n);
    FreedIndex(nodes, size, T, bp, n, i);
    if i < T {
      OtherLink(base, nodes, size, ptr, T, bp, n, i);
    } else if i == T || (i == T + 1 && !lo) {
      PlaceLinks(base, nodes, size, ptr, T, bp, n);
    } else {
      OtherLink(base, nodes, size, ptr, T, bp, n, i - T - (if lo then 1 else 2) + r);
    }
  }

  /** Units in the part of the list around bp. */
  lemma FreedMiddle(base: nat, nodes: seq<nat>, size: map<nat, nat>, T: nat, bp: nat, n: nat)
    requires Ascending(base, nodes, size) && FitsAfter(nodes, size, T, bp, n) && bp > base
    ensures var size' := FreedSize(nodes, size, T, bp, n);
      var mid := [nodes[T]] + (if MergesDown(nodes, size, T, bp) then [] else [bp]);
      Sized(mid, size') && Sum(mid, size') == size[nodes[T]] + FreedEnd(nodes, size, T, bp, n) - bp
  {
    var size' := FreedSize(nodes, size, T, bp, n);
    FreedDistinct(base, nodes, size, T, bp, n, T);
    hide Ascending, FitsAfter;
    assert Sum([nodes[T]], size') == Sum([], size') + size'[nodes[T]];
    if !MergesDown(nodes, size, T, bp) {
      assert Sum([bp], size') == Sum([], size') + size'[bp];
      SumConcat([nodes[T]], [bp], size');
    } else {
      assert [nodes[T]] + [] == [nodes[T]];
    }
  }

  /** Units in the old list, split at the same places. */
  lemma FreedOldSum(nodes: seq<nat>, size: map<nat, nat>, T: nat, bp: nat, n: nat)
    requires T < |nodes| && Sized(nodes, size)
    ensures var z := nodes[Rest(nodes, T, bp, n)..];
      Sum(nodes, size) + n + bp == Sum(nodes[..T], size) + size[nodes[T]] + FreedEnd(nodes, size, T, bp, n) + Sum(z, size)
  {
    SumSplit(nodes, T, size);
    if MergesUp(nodes, T, bp, n) {
      SumSplit(nodes[T + 1..], 0, size);
      assert nodes[T + 1..][1..] == nodes[T + 2..];
      assert Sum(nodes[T + 1..][..0], size) == 0;
    }
  }

  lemma FreedSum(base: nat, nodes: seq<nat>, size: map<nat, nat>, T: nat, bp: nat, n: nat)
    requires Ascending(base, nodes, size) && FitsAfter(nodes, size, T, bp, n) && bp > base
    requires Sized(FreedNodes(nodes, size, T, bp, n), FreedSize(nodes, size, T, bp, n))
    ensures Sum(FreedNodes(nodes, size, T, bp, n), FreedSize(nodes, size, T, bp, n)) == Sum(nodes, size) + n
  {
    var size' := FreedSize(nodes, size, T, bp, n);
    var r := Rest(nodes, T, bp, n);
    var a, mid, z := nodes[..T], [nodes[T]] + (if MergesDown(nodes, size, T, bp) then [] else [bp]), nodes[r..];
    assert FreedNodes(nodes, size, T, bp, n) == a + mid + z;
    FreedMiddle(base, nodes, size, T, bp, n);
    FreedOldSum(nodes, size, T, bp, n);
    forall q | 0 <= q < |nodes| && q != T ensures nodes[q] in size' && size'[nodes[q]] == size[nodes[q]] {
      FreedDistinct(base, nodes, size, T, bp, n, q);
    }
    hide FreedSize, Ascending, FreedNodes, FitsAfter;
    SumFrame(a, size, size');
    SumFrame(z, size, size');
    SumConcat(a, mid, size');
    SumConcat(a + mid, z, size');
  }

  /** Being apart from two adjoining blocks is being apart from their union. */
  lemma ApartJoin(a: nat, m: nat, b: nat, n: nat, k: nat)
    requires m > 0 && Apart(a, m, b, n) && Apart(a, m, b + n, k)
    ensures Apart(a, m, b, n + k)
  {
  }

  /** Block bp of n units overlaps nothing and lies in pages of the allocator. */
  ghost predicate Returnable(base: nat, nodes: seq<nat>, lives: seq<nat>, size: map<nat, nat>, bp: nat, n: nat, got: set<nat>) {
    && n > 0 && bp > base && InPages(bp, n, got)
    && Sized(nodes, size) && Sized(lives, size)
    && (forall j | 1 <= j < |nodes| :: Apart(bp, n, nodes[j], size[nodes[j]]))
    && (forall j | 0 <= j < |lives| :: Apart(lives[j], size[lives[j]], bp, n))
  }

  /** A live block stays clear of the i-th free block of the new list. */
  lemma FreedApartAt(base: nat, nodes: seq<nat>, size: map<nat, nat>, T: nat, bp: nat, n: nat, a: nat, m: nat, i: nat)
    requires Ascending(base, nodes, size) && FitsAfter(nodes, size, T, bp, n) && bp > base
    requires 1 <= i < |FreedNodes(nodes, size, T, bp, n)|
    requires m > 0 && Apart(a, m, bp, n)
    requires forall j | 1 <= j < |nodes| :: Apart(a, m, nodes[j], size[nodes[j]])
    ensures var x, size' := FreedNodes(nodes, size, T, bp, n)[i], FreedSize(nodes, size, T, bp, n);
      x in size' && Apart(a, m, x, size'[x])
  {
    FreedAt(base, nodes, size, T, bp, n, i);
    hide FreedNodes, FreedSize;
    var e := FreedEnd(nodes, size, T, bp, n);
    if MergesUp(nodes, T, bp, n) {
      ApartJoin(a, m, bp, n, size[nodes[T + 1]]);
    }
    assert Apart(a, m, bp, e - bp);
    if i == T && MergesDown(nodes, size, T, bp) {
      ApartJoin(a, m, nodes[T], size[nodes[T]], e - bp);
    }
  }

  lemma InPagesJoin(a: nat, n: nat, k: nat, got: set<nat>)
    requires InPages(a, n, got) && InPages(a + n, k, got)
    ensures InPages(a, n + k, got)
  {
  }

  lemma FreedInPagesAt(base: nat, nodes: seq<nat>, size: map<nat, nat>, T: nat, bp: nat, n: nat, got: set<nat>, i: nat)
    requires Ascending(base, nodes, size) && FitsAfter(nodes, size, T, bp, n) && bp > base
    requires AllInPages(nodes, size, got) && InPages(bp, n, got)
    requires i < |FreedNodes(nodes, size, T, bp, n)|
    ensures var x, size' := FreedNodes(nodes, size, T, bp, n)[i], FreedSize(nodes, size, T, bp, n);
      x in size' && InPages(x, size'[x], got)
  {
    FreedAt(base, nodes, size, T, bp, n, i);
    hide FreedNodes, FreedSize;
    var e := FreedEnd(nodes, size, T, bp, n);
    if MergesUp(nodes, T, bp, n) {
      InPagesJoin(bp, n, size[nodes[T + 1]], got);
    }
    if i == T && MergesDown(nodes, size, T, bp) {
      InPagesJoin(nodes[T], size[nodes[T]], e - bp, got);
    }
  }

  /** A live block's header is not touched. */
  lemma FreedLiveSize(base: nat, nodes: seq<nat>, size: map<nat, nat>, T: nat, bp: nat, n: nat, a: nat)
    requires Ascending(base, nodes, size) && FitsAfter(nodes, size, T, bp, n) && bp > base
    requires a in size && size[a] > 0 && a > base && Apart(a, size[a], bp, n)
    requires forall j | 1 <= j < |nodes| :: Apart(a, size[a], nodes[j], size[nodes[j]])
    ensures var size' := FreedSize(nodes, size, T, bp, n); a in size' && size'[a] == size[a]
  {
    assert a != bp;
    if T >= 1 { assert Apart(a, size[a], nodes[T], size[nodes[T]]); }
    assert a != nodes[T];
  }

  /** Every live block lies above base. */
  lemma LiveAboveBase(base: nat, a: nat, n: nat, got: set<nat>)
    requires n > 0 && InPages(a, n, got) && BaseBelow(base, got)
    ensures a > base
  {
    assert a / PAGE in got;
    assert base < a / PAGE * PAGE <= a;
  }

  lemma FreedLives(base: nat, nodes: seq<nat>, lives: seq<nat>, size: map<nat, nat>, T: nat, bp: nat, n: nat, got: set<nat>)
    requires Ascending(base, nodes, size) && FitsAfter(nodes, size, T, bp, n)
    requires LivesApart(nodes, lives, size) && AllInPages(lives, size, got) && BaseBelow(base, got)
    requires Returnable(base, nodes, lives, size, bp, n, got)
    ensures var nodes', size' := FreedNodes(nodes, size, T, bp, n), FreedSize(nodes, size, T, bp, n);
      && LivesApart(nodes', lives, size') && AllInPages(lives, size', got)
      && Sum(lives, size') == Sum(lives, size)
  {
    var nodes', size' := FreedNodes(nodes, size, T, bp, n), FreedSize(nodes, size, T, bp, n);
    FreedAscending(base, nodes, size, T, bp, n);
    forall i | 0 <= i < |lives| ensures lives[i] in size' && size'[lives[i]] == size[lives[i]] {
      LiveAboveBase(base, lives[i], size[lives[i]], got);
      FreedLiveSize(base, nodes, size, T, bp, n, lives[i]);
    }
    forall i, j | 0 <= i < |lives| && 1 <= j < |nodes'|
      ensures Apart(lives[i], size'[lives[i]], nodes'[j], size'[nodes'[j]])
    {
      FreedApartAt(base, nodes, size, T, bp, n, lives[i], size[lives[i]], j);
    }
    SumFrame(lives, size, size');
  }

  /** kmfree keeps the heap a heap: sorted, merged, disjoint, in its pages, with no unit lost. */
  lemma FreedHeap(base: nat, nodes: seq<nat>, lives: seq<nat>, ptr: map<nat, nat>, size: map<nat, nat>, got: set<nat>,
                  T: nat, bp: nat, n: nat)
    requires Ascending(base, nodes, size) && Ring(nodes, ptr) && LivesApart(nodes, lives, size)
    requires AllInPages(nodes, size, got) && AllInPages(lives, size, got) && BaseBelow(base, got)
    requires Returnable(base, nodes, lives, size, bp, n, got) && FitsAfter(nodes, size, T, bp, n)
    requires Sum(nodes, size) + Sum(lives, size) + n == PAGE * |got|
    ensures Heap(base, FreedNodes(nodes, size, T, bp, n), lives, FreedPtr(nodes, size, ptr, T, bp, n),
                 FreedSize(nodes, size, T, bp, n), got)
  {
    var nodes', size' := FreedNodes(nodes, size, T, bp, n), FreedSize(nodes, size, T, bp, n);
    FreedAscending(base, nodes, size, T, bp, n);
    FreedRing(base, nodes, size, ptr, T, bp, n);
    FreedLives(base, nodes, lives, size, T, bp, n, got);
    forall i | 0 <= i < |nodes'| ensures InPages(nodes'[i], size'[nodes'[i]], got) {
      FreedInPagesAt(base, nodes, size, T, bp, n, got, i);
    }
    hide FreedNodes, FreedSize, FreedPtr;
    FreedSum(base, nodes, size, T, bp, n);
  }

  /** Some free block has at least n units. */
  predicate Roomy(nodes: seq<nat>, size: map<nat, nat>, n: nat) {
    exists i :: 1 <= i < |nodes| && nodes[i] in size && size[nodes[i]] >= n
  }

  /** The headers of the blocks xs say the same. */
  predicate SameSizes(xs: seq<nat>, size: map<nat, nat>, size': map<nat, nat>) {
    forall i | 0 <= i < |xs| :: xs[i] in size && xs[i] in size' && size'[xs[i]] == size[xs[i]]
  }

  /** After kmfree of n units some free block has at least n. */
  lemma FreedRoom(base: nat, nodes: seq<nat>, size: map<nat, nat>, T: nat, bp: nat, n: nat)
    requires Ascending(base, nodes, size) && FitsAfter(nodes, size, T, bp, n) && bp > base
    ensures var nodes', size' := FreedNodes(nodes, size, T, bp, n), FreedSize(nodes, size, T, bp, n);
      Roomy(nodes', size', n)
  {
    var i := if MergesDown(nodes, size, T, bp) then T else T + 1;
    FreedLength(nodes, size, T, bp, n);
    FreedAt(base, nodes, size, T, bp, n, i);
  }

  lemma FreedLivesSame(base: nat, nodes: seq<nat>, lives: seq<nat>, size: map<nat, nat>, T: nat, bp: nat, n: nat, got: set<nat>)
    requires Ascending(base, nodes, size) && FitsAfter(nodes, size, T, bp, n)
    requires LivesApart(nodes, lives, size) && AllInPages(lives, size, got) && BaseBelow(base, got)
    requires Returnable(base, nodes, lives, size, bp, n, got)
    ensures SameSizes(lives, size, FreedSize(nodes, size, T, bp, n))
  {
    var size' := FreedSize(nodes, size, T, bp, n);
    forall i | 0 <= i < |lives| ensures lives[i] in size' && size'[lives[i]] == size[lives[i]] {
      LiveAboveBase(base, lives[i], size[lives[i]], got);
      FreedLiveSize(base, nodes, size, T, bp, n, lives[i]);
    }
  }

  // ---------------------------------------------------------------- taking a block

  function Dropped(nodes: seq<nat>, j: nat): (r: seq<nat>)
    requires j < |nodes|
  {
    nodes[..j] + nodes[j + 1..]
  }

  lemma DroppedIndex(nodes: seq<nat>, j: nat, i: nat)
    requires j < |nodes| && i < |nodes| - 1
    ensures |Dropped(nodes, j)| == |nodes| - 1
    ensures Dropped(nodes, j)[i] == nodes[if i < j then i else i + 1]
  {
  }

  /** What follows the i-th node once node j is gone. */
  function DroppedFollower(nodes: seq<nat>, j: nat, i: nat): (x: nat)
    requires 1 <= j < |nodes| && i < |nodes| - 1
  {
    if i < j - 1 then nodes[i + 1] else if i == j - 1 then nodes[Succ(j, |nodes|)] else nodes[Succ(i + 1, |nodes|)]
  }

  lemma DroppedSucc(nodes: seq<nat>, j: nat, i: nat)
    requires 1 <= j < |nodes| && i < |nodes| - 1
    ensures |Dropped(nodes, j)| == |nodes| - 1
    ensures Dropped(nodes, j)[Succ(i, |nodes| - 1)] == DroppedFollower(nodes, j, i)
  {
    DroppedIndex(nodes, j, Succ(i, |nodes| - 1));
  }

  lemma DroppedRingAt(base: nat, nodes: seq<nat>, size: map<nat, nat>, ptr: map<nat, nat>, j: nat, q: nat)
    requires Ascending(base, nodes, size) && Ring(nodes, ptr) && 1 <= j < |nodes| && q < |nodes| && q != j
    ensures var ptr' := ptr[nodes[j - 1] := ptr[nodes[j]]];
      nodes[q] in ptr' && ptr'[nodes[q]] == DroppedFollower(nodes, j, if q < j then q else q - 1)
  {
    assert ptr[nodes[j]] == nodes[Succ(j, |nodes|)];
    if q != j - 1 {
      assert q < j - 1 ==> nodes[q] < nodes[j - 1];
      assert q > j - 1 ==> nodes[j - 1] < nodes[q];
      assert ptr[nodes[q]] == nodes[Succ(q, |nodes|)];
    }
  }

  lemma DroppedLink(base: nat, nodes: seq<nat>, size: map<nat, nat>, ptr: map<nat, nat>, j: nat, i: nat)
    requires Ascending(base, nodes, size) && Ring(nodes, ptr) && 1 <= j < |nodes| && i < |Dropped(nodes, j)|
    ensures var nodes', ptr' := Dropped(nodes, j), ptr[nodes[j - 1] := ptr[nodes[j]]];
      nodes'[i] in ptr' && ptr'[nodes'[i]] == nodes'[Succ(i, |nodes'|)]
  {
    DroppedIndex(nodes, j, i);
    DroppedSucc(nodes, j, i);
    DroppedRingAt(base, nodes, size, ptr, j, if i < j then i else i + 1);
    hide Dropped, DroppedFollower, Ascending;
  }

  lemma DroppedRing(base: nat, nodes: seq<nat>, size: map<nat, nat>, ptr: map<nat, nat>, j: nat)
    requires Ascending(base, nodes, size) && Ring(nodes, ptr) && 1 <= j < |nodes|
    ensures Ring(Dropped(nodes, j), ptr[nodes[j - 1] := ptr[nodes[j]]])
  {
    var nodes', ptr' := Dropped(nodes, j), ptr[nodes[j - 1] := ptr[nodes[j]]];
    forall i | 0 <= i < |nodes'| ensures nodes'[i] in ptr' && ptr'[nodes'[i]] == nodes'[Succ(i, |nodes'|)] {
      DroppedLink(base, nodes, size, ptr, j, i);
    }
    hide Dropped;
  }

  lemma DroppedAscending(base: nat, nodes: seq<nat>, size: map<nat, nat>, j: nat)
    requires Ascending(base, nodes, size) && 1 <= j < |nodes|
    ensures Ascending(base, Dropped(nodes, j), size)
  {
    var nodes' := Dropped(nodes, j);
    assert forall i | 0 <= i < |nodes'| :: nodes'[i] == nodes[if i < j then i else i + 1];
  }

  lemma TakeWholeApart(base: nat, nodes: seq<nat>, lives: seq<nat>, size: map<nat, nat>, j: nat)
    requires Ascending(base, nodes, size) && LivesApart(nodes, lives, size) && 1 <= j < |nodes|
    ensures LivesApart(Dropped(nodes, j), lives + [nodes[j]], size)
  {
    var nodes', lives', a := Dropped(nodes, j), lives + [nodes[j]], nodes[j];
    forall i | 0 <= i < |nodes'| ensures nodes'[i] == nodes[if i < j then i else i + 1] && nodes'[i] in size {
    }
    forall i | 1 <= i < |nodes'| ensures Apart(a, size[a], nodes'[i], size[nodes'[i]]) {
      var q := if i < j then i else i + 1;
      assert q < j ==> nodes[q] + size[nodes[q]] < nodes[j];
      assert q > j ==> nodes[j] + size[nodes[j]] < nodes[q];
    }
    hide Ascending, Dropped;
    forall i, k | 0 <= i < |lives'| && 1 <= k < |nodes'| ensures Apart(lives'[i], size[lives'[i]], nodes'[k], size[nodes'[k]]) {
      if i < |lives| { assert Apart(lives[i], size[lives[i]], nodes[if k < j then k else k + 1], size[nodes'[k]]); }
    }
    forall i, k | 0 <= i < k < |lives'| ensures Apart(lives'[i], size[lives'[i]], lives'[k], size[lives'[k]]) {
      assert Apart(lives[i], size[lives[i]], a, size[a]);
    }
  }

  lemma TakeWholeSum(nodes: seq<nat>, lives: seq<nat>, size: map<nat, nat>, got: set<nat>, j: nat)
    requires Sized(nodes, size) && Sized(lives, size) && j < |nodes|
    requires AllInPages(nodes, size, got) && AllInPages(lives, size, got)
    ensures AllInPages(Dropped(nodes, j), size, got) && AllInPages(lives + [nodes[j]], size, got)
    ensures Sum(Dropped(nodes, j), size) + Sum(lives + [nodes[j]], size) == Sum(nodes, size) + Sum(lives, size)
  {
    var nodes', lives' := Dropped(nodes, j), lives + [nodes[j]];
    assert forall i | 0 <= i < |nodes'| :: nodes'[i] == nodes[if i < j then i else i + 1];
    SumSplit(nodes, j, size);
    SumConcat(nodes[..j], nodes[j + 1..], size);
    assert lives'[..|lives|] == lives;
  }

  /** kmalloc of a whole free block. */
  lemma TakeWhole(base: nat, nodes: seq<nat>, lives: seq<nat>, ptr: map<nat, nat>, size: map<nat, nat>, got: set<nat>, j: nat)
    requires Heap(base, nodes, lives, ptr, size, got) && 1 <= j < |nodes|
    ensures Heap(base, Dropped(nodes, j), lives + [nodes[j]], ptr[nodes[j - 1] := ptr[nodes[j]]], size, got)
  {
    DroppedRing(base, nodes, size, ptr, j);
    DroppedAscending(base, nodes, size, j);
    TakeWholeApart(base, nodes, lives, size, j);
    TakeWholeSum(nodes, lives, size, got, j);
  }

  /** kmalloc of the last n units of a larger free block. */
  lemma TakeTail(base: nat, nodes: seq<nat>, lives: seq<nat>, ptr: map<nat, nat>, size: map<nat, nat>, got: set<nat>,
                 j: nat, n: nat)
    requires Heap(base, nodes, lives, ptr, size, got) && 1 <= j < |nodes| && 0 < n < size[nodes[j]]
    ensures var p := nodes[j]; var q := p + size[p] - n;
      Heap(base, nodes, lives + [q], ptr, size[p := size[p] - n][q := n], got)
  {
    TakeTailFresh(base, nodes, lives, size, j, n);
    TakeTailSum(nodes, lives, size, j, n);
    TakeTailApart(base, nodes, lives, size, j, n);
    TakeTailAscending(base, nodes, size, j, n);
    TakeTailPages(nodes, lives, size, got, j, n);
    hide Ascending, LivesApart, Ring;
  }

  /** The two headers written are not those of another block. */
  lemma TakeTailFresh(base: nat, nodes: seq<nat>, lives: seq<nat>, size: map<nat, nat>, j: nat, n: nat)
    requires Ascending(base, nodes, size) && LivesApart(nodes, lives, size) && 1 <= j < |nodes| && 0 < n < size[nodes[j]]
    ensures var p := nodes[j]; var q := p + size[p] - n;
      && (forall i | 0 <= i < |nodes| && i != j :: nodes[i] != p && nodes[i] != q)
      && (forall i | 0 <= i < |lives| :: lives[i] != p && lives[i] != q)
  {
    var p := nodes[j];
    var q := p + size[p] - n;
    forall i | 0 <= i < |nodes| && i != j ensures nodes[i] != p && nodes[i] != q {
      assert i < j ==> nodes[i] < nodes[j];
      assert i > j ==> nodes[j] + size[nodes[j]] < nodes[i];
    }
    forall i | 0 <= i < |lives| ensures lives[i] != p && lives[i] != q {
      assert Apart(lives[i], size[lives[i]], p, size[p]);
    }
  }

  lemma TakeTailPages(nodes: seq<nat>, lives: seq<nat>, size: map<nat, nat>, got: set<nat>, j: nat, n: nat)
    requires AllInPages(nodes, size, got) && AllInPages(lives, size, got) && j < |nodes| && 0 < n < size[nodes[j]]
    requires var p := nodes[j]; var q := p + size[p] - n;
      && (forall i | 0 <= i < |nodes| && i != j :: nodes[i] != p && nodes[i] != q)
      && (forall i | 0 <= i < |lives| :: lives[i] != p && lives[i] != q)
    ensures var p := nodes[j]; var q := p + size[p] - n; var size' := size[p := size[p] - n][q := n];
      AllInPages(nodes, size', got) && AllInPages(lives + [q], size', got)
  {
    assert InPages(nodes[j], size[nodes[j]], got);
  }

  lemma TakeTailSum(nodes: seq<nat>, lives: seq<nat>, size: map<nat, nat>, j: nat, n: nat)
    requires Sized(nodes, size) && Sized(lives, size) && j < |nodes| && 0 < n < size[nodes[j]]
    requires var p := nodes[j]; var q := p + size[p] - n; var size' := size[p := size[p] - n][q := n];
      && (forall i | 0 <= i < |nodes| && i != j :: nodes[i] != p && nodes[i] != q)
      && (forall i | 0 <= i < |lives| :: lives[i] != p && lives[i] != q)
    ensures var p := nodes[j]; var q := p + size[p] - n; var size' := size[p := size[p] - n][q := n];
      Sum(nodes, size') + Sum(lives + [q], size') == Sum(nodes, size) + Sum(lives, size)
  {
    var p := nodes[j];
    var q := p + size[p] - n;
    var size' := size[p := size[p] - n][q := n];
    SumSplit(nodes, j, size);
    SumSplit(nodes, j, size');
    SumFrame(nodes[..j], size, size');
    SumFrame(nodes[j + 1..], size, size');
    SumFrame(lives, size, size');
    assert (lives + [q])[..|lives|] == lives;
  }

  lemma TakeTailAscending(base: nat, nodes: seq<nat>, size: map<nat, nat>, j: nat, n: nat)
    requires Ascending(base, nodes, size) && 1 <= j < |nodes| && 0 < n < size[nodes[j]]
    requires var p := nodes[j]; var q := p + size[p] - n;
      forall i | 0 <= i < |nodes| && i != j :: nodes[i] != p && nodes[i] != q
    ensures var p := nodes[j]; var q := p + size[p] - n; var size' := size[p := size[p] - n][q := n];
      Ascending(base, nodes, size')
  {
  }

  /** The taken tail stays clear of every free block, and live blocks of the shrunken one. */
  lemma TakeTailApart(base: nat, nodes: seq<nat>, lives: seq<nat>, size: map<nat, nat>, j: nat, n: nat)
    requires Ascending(base, nodes, size) && LivesApart(nodes, lives, size) && 1 <= j < |nodes| && 0 < n < size[nodes[j]]
    requires var p := nodes[j]; var q := p + size[p] - n;
      && (forall i | 0 <= i < |nodes| && i != j :: nodes[i] != p && nodes[i] != q)
      && (forall i | 0 <= i < |lives| :: lives[i] != p && lives[i] != q)
    ensures var p := nodes[j]; var q := p + size[p] - n; var size' := size[p := size[p] - n][q := n];
      LivesApart(nodes, lives + [q], size')
  {
    var p := nodes[j];
    var q := p + size[p] - n;
    var size', lives' := size[p := size[p] - n][q := n], lives + [q];
    forall i | 1 <= i < |nodes| ensures Apart(q, n, nodes[i], size'[nodes[i]]) {
      assert i < j ==> nodes[i] + size[nodes[i]] < nodes[j];
      assert i > j ==> nodes[j] + size[nodes[j]] < nodes[i];
    }
    hide Ascending;
    forall i | 0 <= i < |lives| ensures size'[lives[i]] == size[lives[i]] && Apart(lives[i], size[lives[i]], p, size[p]) {
    }
    forall i, k | 0 <= i < |lives'| && 1 <= k < |nodes| ensures Apart(lives'[i], size'[lives'[i]], nodes[k], size'[nodes[k]]) {
      if i < |lives| { assert Apart(lives[i], size[lives[i]], nodes[k], size[nodes[k]]); }
    }
  }

  // ---------------------------------------------------------------- the allocator

  /** The place where a block that overlaps no free block belongs. */
  lemma {:induction false} PlaceOf(base: nat, nodes: seq<nat>, size: map<nat, nat>, bp: nat, n: nat, i: nat) returns (T: nat)
    requires Ascending(base, nodes, size) && n > 0 && i < |nodes| && nodes[i] < bp
    requires forall j | 1 <= j < |nodes| :: Apart(bp, n, nodes[j], size[nodes[j]])
    ensures FitsAfter(nodes, size, T, bp, n)
    decreases |nodes| - i
  {
    if i + 1 < |nodes| && nodes[i + 1] < bp {
      T := PlaceOf(base, nodes, size, bp, n, i + 1);
    } else {
      T := i;
      assert T + 1 < |nodes| ==> Apart(bp, n, nodes[T + 1], size[nodes[T + 1]]) && size[nodes[T + 1]] > 0;
      assert T >= 1 ==> Apart(bp, n, nodes[T], size[nodes[T]]);
    }
  }

  lemma PlaceFor(base: nat, nodes: seq<nat>, lives: seq<nat>, size: map<nat, nat>, bp: nat, n: nat, got: set<nat>) returns (T: nat)
    requires Ascending(base, nodes, size) && Returnable(base, nodes, lives, size, bp, n, got)
    ensures FitsAfter(nodes, size, T, bp, n) && T < |nodes| && Sized(nodes, size) && bp > base && n > 0
  {
    T := PlaceOf(base, nodes, size, bp, n, 0);
  }

  /** A live block that is taken off the live list can be returned. */
  lemma UnliveApart(base: nat, nodes: seq<nat>, lives: seq<nat>, size: map<nat, nat>, got: set<nat>, i: nat)
    requires LivesApart(nodes, lives, size) && AllInPages(lives, size, got) && BaseBelow(base, got) && i < |lives|
    ensures var lives', bp := Dropped(lives, i), lives[i];
      && LivesApart(nodes, lives', size) && AllInPages(lives', size, got)
      && Returnable(base, nodes, lives', size, bp, size[bp], got)
  {
    var lives', bp := Dropped(lives, i), lives[i];
    forall k | 0 <= k < |lives'| ensures lives'[k] == lives[if k < i then k else k + 1] && lives'[k] in size {
      DroppedIndex(lives, i, k);
    }
    hide Dropped;
    assert InPages(bp, size[bp], got);
    LiveAboveBase(base, bp, size[bp], got);
    hide InPages, BaseBelow;
    forall j | 0 <= j < |lives'| ensures Apart(lives'[j], size[lives'[j]], bp, size[bp]) {
      var k := if j < i then j else j + 1;
      assert k < i ==> Apart(lives[k], size[lives[k]], bp, size[bp]);
      assert k > i ==> Apart(bp, size[bp], lives[k], size[lives[k]]);
    }
  }

  lemma UnliveReady(base: nat, nodes: seq<nat>, lives: seq<nat>, ptr: map<nat, nat>, size: map<nat, nat>, got: set<nat>, i: nat)
    requires Heap(base, nodes, lives, ptr, size, got) && i < |lives|
    ensures Ascending(base, nodes, size) && Ring(nodes, ptr) && AllInPages(nodes, size, got) && BaseBelow(base, got)
    ensures var lives', bp := Dropped(lives, i), lives[i];
      && LivesApart(nodes, lives', size) && AllInPages(lives', size, got)
      && bp in size && Returnable(base, nodes, lives', size, bp, size[bp], got)
      && Sized(nodes, size) && Sized(lives', size) && SameSizes(lives', size, size)
      && Sum(nodes, size) + Sum(lives', size) + size[bp] == PAGE * |got|
  {
    UnliveApart(base, nodes, lives, size, got, i);
    hide Ring, InPages, BaseBelow, Dropped;
    DroppedSum(lives, size, i);
  }

  lemma DroppedSum(xs: seq<nat>, size: map<nat, nat>, i: nat)
    requires Sized(xs, size) && i < |xs| && Sized(Dropped(xs, i), size)
    ensures Sum(Dropped(xs, i), size) + size[xs[i]] == Sum(xs, size)
  {
    SumSplit(xs, i, size);
    SumConcat(xs[..i], xs[i + 1..], size);
  }

  /** kalloc still has these pages to give, all new to the allocator. */
  predicate FreshPages(pages: seq<nat>, got: set<nat>, base: nat) {
    && (forall i | 0 <= i < |pages| :: pages[i] !in got && base < pages[i] * PAGE)
    && (forall i, j | 0 <= i < j < |pages| :: pages[i] != pages[j])
  }

  lemma PopFresh(pages: seq<nat>, got: set<nat>, base: nat)
    requires FreshPages(pages, got, base) && pages != []
    ensures pages[0] !in got && base < pages[0] * PAGE
    ensures FreshPages(pages[1..], got + {pages[0]}, base)
  {
  }

  /** A page the allocator does not have yet overlaps none of its blocks. */
  lemma PageApart(a: nat, n: nat, got: set<nat>, page: nat)
    requires InPages(a, n, got) && page !in got && n > 0
    ensures Apart(a, n, page * PAGE, PAGE) && Apart(page * PAGE, PAGE, a, n)
  {
    var u := if a >= page * PAGE then a else page * PAGE;
    assert a <= u < a + n ==> u / PAGE in got;
    assert page * PAGE <= u < page * PAGE + PAGE ==> u / PAGE == page;
  }

  lemma SizesCarry(base: nat, nodes: seq<nat>, lives: seq<nat>, size: map<nat, nat>, size': map<nat, nat>)
    requires Ascending(base, nodes, size) && LivesApart(nodes, lives, size)
    requires SameSizes(nodes, size, size') && SameSizes(lives, size, size')
    ensures Ascending(base, nodes, size') && LivesApart(nodes, lives, size')
  {
  }

  lemma PagesCarry(xs: seq<nat>, size: map<nat, nat>, size': map<nat, nat>, got: set<nat>, got': set<nat>)
    requires AllInPages(xs, size, got) && SameSizes(xs, size, size') && got <= got'
    ensures AllInPages(xs, size', got')
  {
    forall i | 0 <= i < |xs| ensures InPages(xs[i], size'[xs[i]], got') {
      assert InPages(xs[i], size[xs[i]], got);
    }
  }

  /** A page outside got is clear of every block. */
  lemma FreshPage(base: nat, nodes: seq<nat>, lives: seq<nat>, size: map<nat, nat>, got: set<nat>, page: nat)
    requires Ascending(base, nodes, size) && LivesApart(nodes, lives, size) && page !in got && base < page * PAGE
    requires AllInPages(nodes, size, got) && AllInPages(lives, size, got)
    ensures var hp, got' := page * PAGE, got + {page}; var size' := size[hp := PAGE];
      && SameSizes(nodes, size, size') && SameSizes(lives, size, size')
      && Returnable(base, nodes, lives, size', hp, PAGE, got')
  {
    var hp, got' := page * PAGE, got + {page};
    forall i | 0 <= i < |nodes| ensures nodes[i] != hp && (i >= 1 ==> Apart(hp, PAGE, nodes[i], size[nodes[i]])) {
      if i >= 1 {
        assert InPages(nodes[i], size[nodes[i]], got);
        PageApart(nodes[i], size[nodes[i]], got, page);
      }
    }
    forall i | 0 <= i < |lives| ensures lives[i] != hp && Apart(lives[i], size[lives[i]], hp, PAGE) {
      assert InPages(lives[i], size[lives[i]], got);
      PageApart(lives[i], size[lives[i]], got, page);
    }
    assert InPages(hp, PAGE, got');
  }

  /** A fresh page whose header has been filled in can be returned to the free list. */
  lemma PageReady(base: nat, nodes: seq<nat>, lives: seq<nat>, ptr: map<nat, nat>, size: map<nat, nat>, got: set<nat>, page: nat)
    requires Heap(base, nodes, lives, ptr, size, got) && page !in got && base < page * PAGE
    ensures var hp, got' := page * PAGE, got + {page}; var size' := size[hp := PAGE];
      && Ascending(base, nodes, size') && LivesApart(nodes, lives, size')
      && AllInPages(nodes, size', got') && AllInPages(lives, size', got') && BaseBelow(base, got')
      && Returnable(base, nodes, lives, size', hp, PAGE, got') && Ring(nodes, ptr)
      && Sum(nodes, size') + Sum(lives, size') + PAGE == PAGE * |got'|
      && SameSizes(lives, size, size')
  {
    var hp, got' := page * PAGE, got + {page};
    var size' := size[hp := PAGE];
    FreshPage(base, nodes, lives, size, got, page);
    SizesCarry(base, nodes, lives, size, size');
    PagesCarry(nodes, size, size', got, got');
    PagesCarry(lives, size, size', got, got');
    SumFrame(nodes, size, size');
    SumFrame(lives, size, size');
    hide Sum, Ring, Ascending, LivesApart, InPages, Returnable;
  }

  /** Header-sized units for nbytes bytes and a header. */
  function Units(nbytes: nat): (n: nat)
    ensures n > 0 && 16 * (n - 1) >= nbytes && (n > 1 ==> 16 * (n - 2) < nbytes)
  {
    (nbytes + 15) / 16 + 1
  }

  predicate AllSmaller(nodes: seq<nat>, size: map<nat, nat>, n: nat) {
    forall i | 0 <= i < |nodes| :: nodes[i] in size && size[nodes[i]] < n
  }

  /** No page was taken, or no free block had n units. */
  ghost predicate Frugal(pages0: seq<nat>, nodes0: seq<nat>, size0: map<nat, nat>, pages: seq<nat>, n: nat) {
    pages == pages0 || AllSmaller(nodes0, size0, n)
  }

  /** While the search goes on without a page the list stays as it was. */
  ghost predicate Going(pages0: seq<nat>, nodes0: seq<nat>, size0: map<nat, nat>,
                        pages: seq<nat>, nodes: seq<nat>, size: map<nat, nat>, n: nat) {
    (pages == pages0 && nodes == nodes0 && size == size0) || AllSmaller(nodes0, size0, n)
  }

  lemma GoingOn(pages0: seq<nat>, nodes0: seq<nat>, size0: map<nat, nat>,
                pages1: seq<nat>, nodes1: seq<nat>, size1: map<nat, nat>,
                pages: seq<nat>, nodes: seq<nat>, size: map<nat, nat>, n: nat)
    requires Going(pages0, nodes0, size0, pages1, nodes1, size1, n)
    ensures Frugal(pages1, nodes1, size1, pages, n) ==> Frugal(pages0, nodes0, size0, pages, n)
    ensures Going(pages1, nodes1, size1, pages, nodes, size, n) ==> Going(pages0, nodes0, size0, pages, nodes, size, n)
  {
  }

  lemma GoingSelf(pages: seq<nat>, nodes: seq<nat>, size: map<nat, nat>, n: nat)
    ensures Going(pages, nodes, size, pages, nodes, size, n) && Frugal(pages, nodes, size, pages, n)
  {
  }

  /** Steps along the ring from node f to node i, at least one. */
  function Steps(f: nat, i: nat, k: nat): (s: nat)
    requires f < k && i < k
    ensures 1 <= s <= k
  {
    if i > f then i - f else i + k - f
  }

  function Pred(j: nat, k: nat): (i: nat)
    requires j < k
    ensures i < k && Succ(i, k) == j
  {
    if j > 0 then j - 1 else k - 1
  }

  /** The search of kmalloc, which started after node f, has rejected every node before node j. */
  predicate Turn(nodes: seq<nat>, size: map<nat, nat>, f: nat, j: nat, n: nat) {
    && f < |nodes| && j < |nodes| && Sized(nodes, size)
    && forall i | 0 <= i < |nodes| && Steps(f, i, |nodes|) < Steps(f, j, |nodes|) :: size[nodes[i]] < n
  }

  lemma TurnStep(nodes: seq<nat>, size: map<nat, nat>, f: nat, j: nat, n: nat)
    requires Turn(nodes, size, f, j, n) && size[nodes[j]] < n
    ensures j != f ==> Turn(nodes, size, f, Succ(j, |nodes|), n)
    ensures j != f ==> Steps(f, Succ(j, |nodes|), |nodes|) == Steps(f, j, |nodes|) + 1
    ensures j == f ==> AllSmaller(nodes, size, n)
  {
  }

  lemma TurnStart(nodes: seq<nat>, size: map<nat, nat>, f: nat, n: nat)
    requires f < |nodes| && Sized(nodes, size)
    ensures Turn(nodes, size, f, Succ(f, |nodes|), n)
  {
  }

  /** What the search relies on at node j. */
  lemma AtNode(base: nat, nodes: seq<nat>, lives: seq<nat>, ptr: map<nat, nat>, size: map<nat, nat>, got: set<nat>, f: nat, j: nat)
    requires Heap(base, nodes, lives, ptr, size, got) && f < |nodes| && j < |nodes|
    ensures Sized(nodes, size) && nodes[j] in size && nodes[j] in ptr
    ensures ptr[nodes[j]] == nodes[Succ(j, |nodes|)]
    ensures nodes[j] == nodes[f] <==> j == f
    ensures size[nodes[j]] > 0 ==> j >= 1
  {
    assert ptr[nodes[j]] == nodes[Succ(j, |nodes|)];
    assert j < f ==> nodes[j] < nodes[f];
    assert f < j ==> nodes[f] < nodes[j];
  }

  lemma RoomyNotSmall(nodes: seq<nat>, size: map<nat, nat>, m: nat, n: nat)
    requires AllSmaller(nodes, size, n) && n <= m
    ensures !Roomy(nodes, size, m)
  {
  }

  lemma CarveSizes(base: nat, nodes: seq<nat>, lives: seq<nat>, ptr: map<nat, nat>, size: map<nat, nat>, got: set<nat>,
                   j: nat, n: nat)
    requires Heap(base, nodes, lives, ptr, size, got) && 1 <= j < |nodes| && 0 < n <= size[nodes[j]]
    ensures SameSizes(lives, size, size)
    ensures n < size[nodes[j]] ==> SameSizes(lives, size, size[nodes[j] := size[nodes[j]] - n][nodes[j] + size[nodes[j]] - n := n])
  {
    if n < size[nodes[j]] {
      TakeTailFresh(base, nodes, lives, size, j, n);
    }
  }

  lemma PositiveNode(base: nat, nodes: seq<nat>, lives: seq<nat>, ptr: map<nat, nat>, size: map<nat, nat>, got: set<nat>, i: nat)
    requires Heap(base, nodes, lives, ptr, size, got) && i < |nodes|
    ensures nodes[i] >= base
  {
  }

  lemma LivesSized(base: nat, nodes: seq<nat>, lives: seq<nat>, ptr: map<nat, nat>, size: map<nat, nat>, got: set<nat>)
    requires Heap(base, nodes, lives, ptr, size, got)
    ensures SameSizes(lives, size, size)
  {
  }

  lemma SameTrans(xs: seq<nat>, a: map<nat, nat>, b: map<nat, nat>, c: map<nat, nat>)
    requires SameSizes(xs, a, b) && SameSizes(xs, b, c)
    ensures SameSizes(xs, a, c)
  {
  }

  lemma FirstHeap(base: nat, ptr: map<nat, nat>, size: map<nat, nat>)
    requires ptr == map[base := base] && size == map[base := 0]
    ensures Heap(base, [base], [], ptr, size, {})
  {
    assert Sum([base], size) == Sum([], size) + size[base];
  }

  /** How a caller's request ends. */
  datatype Alloc = Block(ap: nat) | Null | Panics

  /** Where the search stands: go on, out of memory, or block a was taken. */
  datatype Status = More | Out | Done(a: nat)

  class Allocator {
    const base: nat
    var ptr: map<nat, nat>
    var size: map<nat, nat>
    var freep: nat
    var pages: seq<nat>
    ghost var nodes: seq<nat>
    ghost var lives: seq<nat>
    ghost var got: set<nat>

    /** freep is NULL until the first request. */
    ghost predicate Valid()
      reads this
    {
      && base > 0 && FreshPages(pages, got, base)
      && if freep == 0 then nodes == [base] && lives == [] && got == {}
         else freep in nodes && Heap(base, nodes, lives, ptr, size, got)
    }

    constructor (base: nat, pages: seq<nat>)
      requires base > 0 && forall i | 0 <= i < |pages| :: base < pages[i] * PAGE
      requires forall i, j | 0 <= i < j < |pages| :: pages[i] != pages[j]
      ensures Valid() && lives == [] && got == {} && this.pages == pages
    {
      this.base, this.pages := base, pages;
      ptr, size, freep := map[], map[], 0;
      nodes, lives, got := [base], [], {};
    }

    /** The search loop of kmfree. */
    method Search(bp: nat, ghost T: nat, ghost n: nat) returns (p: nat)
      requires base > 0 && freep in nodes && Ascending(base, nodes, size) && Ring(nodes, ptr)
      requires bp > base && FitsAfter(nodes, size, T, bp, n)
      ensures p == nodes[T]
    {
      ghost var j: nat :| j < |nodes| && nodes[j] == freep;
      p := freep;
      while !(bp > p && bp < ptr[p])
        invariant 0 <= j < |nodes| && p == nodes[j]
        invariant ptr[nodes[j]] == nodes[Succ(j, |nodes|)]
        decreases if j <= T then T - j else T - j + |nodes|
      {
        SearchStep(j, T, bp, n);
        if p >= ptr[p] && (bp > p || bp < ptr[p]) {
          return;
        }
        p := ptr[p];
        j := Succ(j, |nodes|);
        assert ptr[nodes[j]] == nodes[Succ(j, |nodes|)];
      }
      SearchStep(j, T, bp, n);
    }

    /** Only at node T does one of the two exit tests hold. */
    lemma SearchStep(j: nat, T: nat, bp: nat, n: nat)
      requires Ascending(base, nodes, size) && bp > base && FitsAfter(nodes, size, T, bp, n) && j < |nodes|
      ensures var p, next := nodes[j], nodes[Succ(j, |nodes|)];
        j == T <==> (bp > p && bp < next) || (p >= next && (bp > p || bp < next))
    {
      assert nodes[T] < bp;
      assert j < T ==> nodes[j] < nodes[T];
      assert j > T ==> bp < nodes[j];
      assert j + 1 < |nodes| ==> nodes[j] < nodes[j + 1] && (j + 1 > T ==> bp < nodes[j + 1]) && (j + 1 <= T ==> nodes[j + 1] < bp);
    }

    /** The list surgery of kmfree on the block at bp, whose header holds its size. */
    method Release(bp: nat)
      requires base > 0 && freep in nodes && bp in size
      requires Ascending(base, nodes, size) && Ring(nodes, ptr) && LivesApart(nodes, lives, size)
      requires AllInPages(nodes, size, got) && AllInPages(lives, size, got) && BaseBelow(base, got)
      requires Returnable(base, nodes, lives, size, bp, size[bp], got)
      requires Sum(nodes, size) + Sum(lives, size) + size[bp] == PAGE * |got|
      modifies this`ptr, this`size, this`freep, this`nodes
      ensures Heap(base, nodes, lives, ptr, size, got) && freep in nodes && freep != 0
      ensures Roomy(nodes, size, old(size)[bp])
      ensures SameSizes(lives, old(size), size)
    {
      hide Ascending, LivesApart, AllInPages, BaseBelow, Heap, FitsAfter, Returnable;
      hide Ring, FreedSize, FreedPtr, Roomy, SameSizes, Sum;
      ghost var n := size[bp];
      ghost var T := PlaceFor(base, nodes, lives, size, bp, n, got);
      FreedHeap(base, nodes, lives, ptr, size, got, T, bp, n);
      FreedRoom(base, nodes, size, T, bp, n);
      FreedLivesSame(base, nodes, lives, size, T, bp, n, got);
      UpTest(T, bp, n);
      var p := Search(bp, T, n);
      Relink(p, bp, T, n);
      freep := p;
      ghost var size0 := old(size);
      FreedIndex(nodes, size0, T, bp, n, T);
      nodes := FreedNodes(nodes, size0, T, bp, n);
    }

    /** At the place of bp, the test bp + bp->size == p->ptr asks whether the next node touches bp. */
    lemma UpTest(T: nat, bp: nat, n: nat)
      requires Ascending(base, nodes, size) && Ring(nodes, ptr) && bp > base > 0 && FitsAfter(nodes, size, T, bp, n)
      ensures T < |nodes| && Sized(nodes, size) && nodes[T] > 0 && nodes[T] != bp && T < |FreedNodes(nodes, size, T, bp, n)|
      ensures nodes[T] in ptr && ptr[nodes[T]] == nodes[Succ(T, |nodes|)] && ptr[nodes[T]] in ptr
      ensures ptr[nodes[T]] in size
      ensures MergesUp(nodes, T, bp, n) <==> bp + n == ptr[nodes[T]]
    {
      FreedDistinct(base, nodes, size, T, bp, n, T);
      assert ptr[nodes[T]] == nodes[Succ(T, |nodes|)];
    }

    /** The link and size updates of kmfree, in its order. */
    method Relink(p: nat, bp: nat, ghost T: nat, ghost n: nat)
      requires T < |nodes| && p == nodes[T] && Sized(nodes, size) && Ring(nodes, ptr) && nodes[T] in size
      requires bp in size && n == size[bp] && bp != p
      requires p in ptr && ptr[p] == nodes[Succ(T, |nodes|)] && ptr[p] in ptr && ptr[p] in size
      requires MergesUp(nodes, T, bp, n) <==> bp + n == ptr[p]
      modifies this`ptr, this`size
      ensures size == FreedSize(nodes, old(size), T, bp, n)
      ensures ptr == FreedPtr(nodes, old(size), old(ptr), T, bp, n)
    {
      var next := ptr[p];
      if bp + size[bp] == next {
        size := size[bp := size[bp] + size[next]];
        ptr := ptr[bp := ptr[next]];
      } else {
        ptr := ptr[bp := next];
      }
      if p + size[p] == bp {
        size := size[p := size[p] + size[bp]];
        ptr := ptr[p := ptr[bp]];
      } else {
        ptr := ptr[p := bp];
      }
    }

    lemma LiveMeansHeap(i: nat)
      requires Valid() && i < |lives|
      ensures freep != 0 && Heap(base, nodes, lives, ptr, size, got)
    {
    }

    /** kmfree of a pointer that kmalloc returned: exactly that block stops being live. */
    method Kmfree(ap: nat, ghost i: nat)
      requires Valid() && i < |lives| && ap == lives[i] + 1
      modifies this
      ensures Valid() && pages == old(pages) && got == old(got)
      ensures lives == Dropped(old(lives), i)
      ensures SameSizes(lives, old(size), size)
    {
      hide Ascending, LivesApart, AllInPages, BaseBelow, Heap, Returnable, Ring, Sum, FreshPages, Dropped;
      var bp := ap - 1;
      LiveMeansHeap(i);
      UnliveReady(base, nodes, lives, ptr, size, got, i);
      lives := Dropped(lives, i);
      Release(bp);
    }

    /** The page at the front of kalloc's list becomes free space. */
    method AddPage()
      requires Valid() && freep != 0 && pages != []
      modifies this
      ensures Valid() && freep != 0 && lives == old(lives)
      ensures pages == old(pages)[1..] && got == old(got) + {old(pages)[0]}
      ensures Roomy(nodes, size, PAGE)
      ensures SameSizes(lives, old(size), size)
    {
      hide FreshPages, Heap, Ascending, Ring, LivesApart, AllInPages, BaseBelow, Returnable, Sum, Roomy;
      var page := pages[0];
      var hp := page * PAGE;
      PopFresh(pages, got, base);
      PageReady(base, nodes, lives, ptr, size, got, page);
      pages := pages[1..];
      size := size[hp := PAGE];
      got := got + {page};
      Release(hp);
    }

    /** morecore: a fresh page, or NULL if kalloc has none. */
    method Morecore(ghost size0: map<nat, nat>) returns (p: Option<nat>)
      requires Valid() && freep != 0 && SameSizes(lives, size0, size)
      modifies this
      ensures Valid() && freep != 0 && lives == old(lives)
      ensures p.None? <==> old(pages) == []
      ensures p.None? ==> nodes == old(nodes) && size == old(size) && pages == [] && got == old(got)
      ensures p.Some? ==> p.value == freep && pages == old(pages)[1..] && Roomy(nodes, size, PAGE)
      ensures SameSizes(lives, size0, size)
    {
      hide Heap, FreshPages, Roomy, SameSizes;
      if pages == [] {
        return None;
      }
      AddPage();
      SameTrans(lives, size0, old(size), size);
      return Some(freep);
    }

    /** Take all of free block p, whose predecessor in the list is prevp. */
    method CarveWhole(prevp: nat, p: nat, ghost j: nat)
      requires Valid() && freep != 0
      requires 1 <= j < |nodes| && prevp == nodes[j - 1] && p == nodes[j]
      modifies this
      ensures Valid() && freep != 0 && pages == old(pages) && size == old(size)
      ensures lives == old(lives) + [p]
    {
      hide Heap, FreshPages, Dropped;
      TakeWhole(base, nodes, lives, ptr, size, got, j);
      AtNode(base, nodes, lives, ptr, size, got, j, j);
      DroppedIndex(nodes, j, j - 1);
      PositiveNode(base, nodes, lives, ptr, size, got, j - 1);
      ptr := ptr[prevp := ptr[p]];
      nodes := Dropped(nodes, j);
      lives := lives + [p];
      freep := prevp;
    }

    /** Take the last n units of the larger free block p. */
    method CarveTail(prevp: nat, p: nat, n: nat, ghost j: nat) returns (a: nat)
      requires Valid() && freep != 0 && n > 0
      requires 1 <= j < |nodes| && prevp == nodes[j - 1] && p == nodes[j] && p in size && size[p] > n
      modifies this
      ensures Valid() && freep != 0 && pages == old(pages)
      ensures lives == old(lives) + [a] && a in size && size[a] == n
      ensures SameSizes(old(lives), old(size), size)
    {
      hide Heap, FreshPages, SameSizes;
      AtNode(base, nodes, lives, ptr, size, got, j, j);
      TakeTail(base, nodes, lives, ptr, size, got, j, n);
      CarveSizes(base, nodes, lives, ptr, size, got, j, n);
      PositiveNode(base, nodes, lives, ptr, size, got, j - 1);
      var left := size[p] - n;
      size := size[p := left];
      a := p + left;
      size := size[a := n];
      lives := lives + [a];
      freep := prevp;
    }

    /** Take n units out of free block p, whose predecessor in the list is prevp. */
    method Carve(prevp: nat, p: nat, n: nat, ghost j: nat, ghost size0: map<nat, nat>) returns (a: nat)
      requires Valid() && freep != 0 && n > 0 && SameSizes(lives, size0, size)
      requires 1 <= j < |nodes| && prevp == nodes[j - 1] && p == nodes[j] && p in size && size[p] >= n
      modifies this
      ensures Valid() && freep != 0 && pages == old(pages)
      ensures lives == old(lives) + [a] && a in size && size[a] == n
      ensures SameSizes(old(lives), size0, size)
    {
      hide Heap, FreshPages, SameSizes;
      CarveSizes(base, nodes, lives, ptr, size, got, j, n);
      if size[p] == n {
        CarveWhole(prevp, p, j);
        a := p;
      } else {
        a := CarveTail(prevp, p, n, j);
        SameTrans(old(lives), size0, old(size), size);
      }
    }

    /** kmalloc.  A block is returned that overlaps no other live block and holds nbytes bytes, with every other
        live block untouched.  NULL means kalloc has no page left and no free block is large enough.  A
        request of at most 4080 bytes takes at most one page, and none if it fails. */
    method Kmalloc(nbytes: nat) returns (r: Alloc)
      requires Valid()
      modifies this
      ensures Valid()
      ensures r.Panics? <==> nbytes > 4096
      ensures r.Panics? ==> lives == old(lives) && pages == old(pages) && got == old(got)
      ensures r.Block? ==>
        && r.ap > 0 && lives == old(lives) + [r.ap - 1]
        && r.ap - 1 in size && size[r.ap - 1] == Units(nbytes)
        && SameSizes(old(lives), old(size), size)
      ensures r.Null? ==>
        && lives == old(lives) && pages == [] && AllSmaller(nodes, size, Units(nbytes))
        && SameSizes(lives, old(size), size)
      ensures nbytes <= 4080 ==> |old(pages)| - |pages| <= 1 && (r.Null? ==> old(pages) == [])
      ensures pages == old(pages) || old(freep) == 0 || AllSmaller(old(nodes), old(size), Units(nbytes))
    {
      if nbytes > 4096 {
        return Panics;
      }
      if freep == 0 {
        ptr, size, freep := map[base := base], map[base := 0], base;
        FirstHeap(base, ptr, size);
      }
      assert SameSizes(lives, old(size), size);
      hide Heap, FreshPages, SameSizes, AllSmaller;
      r := Allocate(Units(nbytes));
    }

    /** The search loop of kmalloc for n units. */
    method Allocate(n: nat) returns (r: Alloc)
      requires Valid() && freep != 0 && n > 0
      modifies this
      ensures Valid() && !r.Panics?
      ensures r.Block? ==>
        && r.ap > 0 && lives == old(lives) + [r.ap - 1] && r.ap - 1 in size && size[r.ap - 1] == n
        && SameSizes(old(lives), old(size), size)
      ensures r.Null? ==> lives == old(lives) && pages == [] && AllSmaller(nodes, size, n)
      ensures r.Null? ==> SameSizes(lives, old(size), size)
      ensures n <= PAGE ==> |old(pages)| - |pages| <= 1 && (r.Null? ==> old(pages) == [])
      ensures Frugal(old(pages), old(nodes), old(size), pages, n)
    {
      LivesSized(base, nodes, lives, ptr, size, got);
      GoingSelf(pages, nodes, size, n);
      hide Valid, AtSearch, Left, SameSizes, AllSmaller, Roomy, Succ, Frugal, Going;
      ghost var f: nat := StartTurn(n);
      ghost var j: nat := Succ(f, |nodes|);
      var prevp, p := freep, ptr[freep];
      var st := More;
      while st.More?
        invariant Valid() && (!st.Done? ==> lives == old(lives))
        invariant st.More? ==> freep != 0 && AtSearch(f, j, prevp, p, n)
        invariant st.More? ==> |pages| < |old(pages)| ==> Roomy(nodes, size, PAGE)
        invariant SameSizes(old(lives), old(size), size)
        invariant |pages| <= |old(pages)| && (n <= PAGE ==> |old(pages)| - |pages| <= 1)
        invariant st.Out? ==> pages == [] && AllSmaller(nodes, size, n) && (n <= PAGE ==> old(pages) == [])
        invariant st.Done? ==> lives == old(lives) + [st.a] && st.a in size && size[st.a] == n
        invariant Frugal(old(pages), old(nodes), old(size), pages, n)
        invariant st.More? ==> Going(old(pages), old(nodes), old(size), pages, nodes, size, n)
        decreases st.More?, |pages|, if st.More? then Left(f, j) else 0
      {
        ghost var pages1, nodes1, size1 := pages, nodes, size;
        st, prevp, p, f, j := Probe(prevp, p, n, f, j, old(size), |old(pages)|);
        GoingOn(old(pages), old(nodes), old(size), pages1, nodes1, size1, pages, nodes, size, n);
      }
      return if st.Done? then Block(st.a + 1) else Null;
    }

    /** Nodes the search has still to visit before it is back at freep. */
    ghost function Left(f: nat, j: nat): (r: nat)
      reads this
    {
      if f < |nodes| && j < |nodes| then |nodes| - Steps(f, j, |nodes|) else 0
    }

    /** One round of the search loop: take the block, go on, or get a page. */
    method Probe(prevp: nat, p: nat, n: nat, ghost f: nat, ghost j: nat, ghost size0: map<nat, nat>, ghost had: nat)
        returns (st: Status, prevp': nat, p': nat, ghost f': nat, ghost j': nat)
      requires Valid() && freep != 0 && n > 0 && AtSearch(f, j, prevp, p, n) && SameSizes(lives, size0, size)
      requires |pages| <= had && (|pages| < had ==> Roomy(nodes, size, PAGE)) && (n <= PAGE ==> had - |pages| <= 1)
      modifies this
      ensures Valid() && SameSizes(old(lives), size0, size)
      ensures |pages| <= had && (n <= PAGE ==> had - |pages| <= 1)
      ensures st.More? ==> freep != 0 && lives == old(lives) && AtSearch(f', j', prevp', p', n)
      ensures st.More? ==> |pages| < had ==> Roomy(nodes, size, PAGE)
      ensures st.More? ==> |pages| < |old(pages)| || (|pages| == |old(pages)| && Left(f', j') < old(Left(f, j)))
      ensures st.Out? ==> lives == old(lives) && pages == [] && AllSmaller(nodes, size, n) && (n <= PAGE ==> had == 0)
      ensures st.Done? ==> lives == old(lives) + [st.a] && st.a in size && size[st.a] == n
      ensures Frugal(old(pages), old(nodes), old(size), pages, n)
      ensures st.More? ==> Going(old(pages), old(nodes), old(size), pages, nodes, size, n)
    {
      hide Heap, FreshPages, SameSizes, AllSmaller, Roomy;
      prevp', p', f', j' := prevp, p, f, j;
      AtNode(base, nodes, lives, ptr, size, got, f, j);
      if size[p] >= n {
        var a := Carve(prevp, p, n, j, size0);
        return Done(a), prevp', p', f', j';
      }
      TurnStep(nodes, size, f, j, n);
      if p == freep {
        if n <= PAGE {
          if |pages| < had { RoomyNotSmall(nodes, size, PAGE, n); }
        }
        hide Turn, Steps;
        var more := Morecore(size0);
        if more.None? { return Out, prevp', p', f', j'; }
        f' := StartTurn(n);
        return More, freep, ptr[freep], f', Succ(f', |nodes|);
      }
      return More, p, ptr[p], f, Succ(j, |nodes|);
    }

    /** The search stands at node j, having started after node f, where freep points. */
    ghost predicate AtSearch(f: nat, j: nat, prevp: nat, p: nat, n: nat)
      reads this
    {
      && f < |nodes| && j < |nodes| && freep == nodes[f] && p == nodes[j] && prevp == nodes[Pred(j, |nodes|)]
      && Turn(nodes, size, f, j, n)
    }

    lemma StartTurn(n: nat) returns (f: nat)
      requires Valid() && freep != 0
      ensures f < |nodes| && freep == nodes[f] && freep in ptr
      ensures AtSearch(f, Succ(f, |nodes|), freep, ptr[freep], n)
    {
      hide Heap, FreshPages, Turn;
      f := FreepIndex();
      AtNode(base, nodes, lives, ptr, size, got, f, f);
      TurnStart(nodes, size, f, n);
    }

    lemma FreepIndex() returns (f: nat)
      requires Valid() && freep != 0
      ensures f < |nodes| && freep == nodes[f]
    {
      f :| f < |nodes| && nodes[f] == freep;
    }
  }
}
