/** The page allocator of kernel/kalloc.c: a free list threaded through an array of page records.
    A page is known by its number, its address divided by PGSIZE. */
module Kalloc {
  import opened Common

  const PHYSTOP := 0x8800_0000
  const MAXPAGES := PHYSTOP / PGSIZE
  const NULL := -1

  function At(list: seq<nat>, k: nat): (r: int) {
    if k < |list| then list[k] else NULL
  }

  /** The records link the pages of `list` in this order. */
  ghost predicate Linked(next: seq<int>, head: int, list: seq<nat>) {
    && head == At(list, 0)
    && forall k | 0 <= k < |list| :: IsLink(next, list, k)
  }

  ghost predicate IsLink(next: seq<int>, list: seq<nat>, k: nat)
    requires k < |list|
  {
    list[k] < |next| && next[list[k]] == At(list, k + 1)
  }

  lemma PopLinked(next: seq<int>, head: int, list: seq<nat>)
    requires Linked(next, head, list) && list != []
    ensures head < |next| && head == list[0] && Linked(next, next[head], list[1..])
  {
    assert IsLink(next, list, 0);
    forall k | 0 <= k < |list[1..]| ensures IsLink(next, list[1..], k) {
      assert IsLink(next, list, k + 1);
    }
  }

  lemma PushLinked(next: seq<int>, head: int, list: seq<nat>, f: nat)
    requires Linked(next, head, list) && f < |next| && f !in list
    ensures Linked(next[f := head], f, [f] + list)
  {
    var now, after := [f] + list, next[f := head];
    forall k | 0 <= k < |now| ensures IsLink(after, now, k) {
      if k > 0 {
        assert IsLink(next, list, k - 1);
      }
    }
  }

  /** No page is listed twice. */
  ghost predicate Distinct(list: seq<nat>) {
    forall j, k | 0 <= j < k < |list| :: list[j] != list[k]
  }

  /** Every page from lo up to hi is free or busy, and not both. */
  ghost predicate Accounted(lo: nat, hi: nat, free: seq<nat>, busy: set<nat>) {
    && (forall f: nat :: f in free || f in busy <==> lo <= f < hi)
    && (forall f | f in busy :: f !in free)
  }

  lemma PopAccounted(lo: nat, hi: nat, free: seq<nat>, busy: set<nat>)
    requires Accounted(lo, hi, free, busy) && Distinct(free) && free != []
    ensures lo <= free[0] < hi && free[0] !in busy
    ensures Distinct(free[1..]) && Accounted(lo, hi, free[1..], busy + {free[0]})
  {
    assert free[0] in free;
    forall f: nat ensures f in free <==> f == free[0] || f in free[1..] {
      assert free == [free[0]] + free[1..];
    }
    assert free[0] !in free[1..];
  }

  lemma PushAccounted(lo: nat, hi: nat, free: seq<nat>, busy: set<nat>, f: nat)
    requires Accounted(lo, hi, free, busy) && Distinct(free) && f in busy
    ensures lo <= f < hi && f !in free
    ensures Distinct([f] + free) && Accounted(lo, hi, [f] + free, busy - {f})
  {
  }

  /** What kalloc's last line computes from the record at address `r` in an array at `runs`: the
      difference in records of 16 bytes, times PGSIZE, in 64-bit arithmetic. */
  function PageAddress(r: nat, runs: nat): (a: nat) {
    ((r - runs) / 16 * PGSIZE) % WORD
  }

  /** With no free page kalloc returns the address for the null record. It is never 0 for an array in
      memory, though the comment above kalloc promises 0: that promise is kept only if a page is free. */
  lemma EmptyIsNotNull(runs: nat)
    requires 0 < runs < WORD / PGSIZE && runs % 16 == 0
    ensures PageAddress(0, runs) != 0
    ensures forall i: nat | i < MAXPAGES :: PageAddress(runs + 16 * i, runs) == i * PGSIZE
  {
  }

  class Kmem {
    const lo: nat // the first whole page after the kernel
    const hi: nat
    var next: seq<int>
    var ref: seq<int>
    var freelist: int
    ghost var free: seq<nat>
    ghost var busy: set<nat>

    /** Every page from lo up to hi is on the list once, or in use with one reference. */
    ghost predicate Valid()
      reads this
    {
      && hi <= MAXPAGES && |next| == |ref| == MAXPAGES
      && Linked(next, freelist, free) && Distinct(free)
      && Accounted(lo, hi, free, busy)
      && (forall f | f in busy :: ref[f] == 1)
    }

    /** kinit for a kernel that ends at `end`. */
    constructor (end: nat)
      requires end < PHYSTOP
      ensures Valid() && busy == {} && lo * PGSIZE - PGSIZE < end <= lo * PGSIZE && hi == MAXPAGES
      ensures fresh(this) && |free| == hi - lo
    {
      lo, hi := (end + PGSIZE - 1) / PGSIZE, MAXPAGES;
      next, ref := seq(MAXPAGES, _ => NULL), seq(MAXPAGES, _ => 0);
      freelist, free, busy := NULL, [], {};
      new;
      var p := lo;
      while p < hi
        invariant lo <= p <= hi && |next| == |ref| == MAXPAGES && busy == {}
        invariant Linked(next, freelist, free) && Distinct(free) && |free| == p - lo
        invariant forall f :: f in free <==> lo <= f < p
      {
        PushLinked(next, freelist, free, p);
        next := next[p := freelist];
        freelist := p;
        free := [p] + free;
        p := p + 1;
      }
    }

    /** The documented kalloc: the page at the head of the list, or none. */
    method Kalloc() returns (f: int)
      requires Valid()
      modifies this
      ensures Valid()
      ensures f == NULL <==> old(free) == []
      ensures f == NULL ==> free == old(free) && busy == old(busy)
      ensures f != NULL ==> f >= 0 && f == old(free)[0] && free == old(free)[1..] && busy == old(busy) + {f}
      ensures f != NULL ==> f !in old(busy) && lo <= f < hi
    {
      hide Accounted, Distinct;
      f := freelist;
      if f != NULL {
        PopLinked(next, freelist, free);
        PopAccounted(lo, hi, free, busy);
        ref := ref[f := 1];
        freelist := next[f];
        free, busy := free[1..], busy + {f};
      }
    }

    /** kfree of a page in use: it is in range and has one reference, so no check fails. */
    method Kfree(f: nat)
      requires Valid() && f in busy
      modifies this
      ensures Valid() && free == [f] + old(free) && busy == old(busy) - {f}
    {
      hide Accounted, Distinct;
      PushAccounted(lo, hi, free, busy, f);
      PushLinked(next, freelist, free, f);
      next := next[f := freelist];
      freelist := f;
      free, busy := [f] + free, busy - {f};
    }
  }
}
