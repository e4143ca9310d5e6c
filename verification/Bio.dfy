/** The buffer cache of kernel/bio.c: NBUF buffers on a circular doubly linked list through
    `prev`/`next`, kept in least-recently-used order. Buffers live in one static array, so a
    pointer is an index; the list head is the index HEAD. */
module Bio {
  import opened Blocks
  import opened Common

  const HEAD: nat := NBUF

  // ------------------------------------------------------------------ the linked list

  ghost predicate Distinct(s: seq<nat>) {
    forall j, k | 0 <= j < k < |s| :: s[j] != s[k]
  }

  ghost function Succ(order: seq<nat>, k: nat): (r: nat)
    requires k < |order|
  {
    if k + 1 < |order| then order[k + 1] else HEAD
  }

  ghost function Pred(order: seq<nat>, k: nat): (r: nat)
    requires k < |order|
  {
    if k > 0 then order[k - 1] else HEAD
  }

  ghost predicate Members(order: seq<nat>) {
    Distinct(order) && forall k | 0 <= k < |order| :: order[k] < NBUF
  }

  ghost predicate LinkedNext(next: seq<nat>, order: seq<nat>) {
    && |next| == NBUF + 1 && Members(order)
    && next[HEAD] == (if order == [] then HEAD else order[0])
    && forall k {:trigger next[order[k]]} | 0 <= k < |order| :: next[order[k]] == Succ(order, k)
  }

  ghost predicate LinkedPrev(prev: seq<nat>, order: seq<nat>) {
    && |prev| == NBUF + 1 && Members(order)
    && prev[HEAD] == (if order == [] then HEAD else order[|order| - 1])
    && forall k {:trigger prev[order[k]]} | 0 <= k < |order| :: prev[order[k]] == Pred(order, k)
  }

  /** `next` and `prev` form one circle through HEAD and then the buffers of `order`. */
  ghost predicate Linked(next: seq<nat>, prev: seq<nat>, order: seq<nat>) {
    LinkedNext(next, order) && LinkedPrev(prev, order)
  }

  ghost function Without(order: seq<nat>, p: nat): (r: seq<nat>)
    requires p < |order|
  {
    order[..p] + order[p + 1..]
  }

  lemma WithoutMembers(order: seq<nat>, p: nat)
    requires Members(order) && p < |order|
    ensures Members(Without(order, p)) && order[p] !in Without(order, p)
  {
  }

  lemma RestHolds(order: seq<nat>, p: nat)
    requires Members(order) && p < |order| && forall i | 0 <= i < NBUF :: i in order
    ensures forall i | 0 <= i < NBUF :: i in [order[p]] + Without(order, p)
  {
    forall i | 0 <= i < NBUF && i != order[p] ensures i in Without(order, p) {
      assert i in order;
      var m :| 0 <= m < |order| && order[m] == i;
      assert Without(order, p)[if m < p then m else m - 1] == i;
    }
  }

  lemma UnlinkNext(next: seq<nat>, order: seq<nat>, p: nat, n: nat, q: nat)
    requires LinkedNext(next, order) && p < |order| && n == Succ(order, p) && q == Pred(order, p)
    ensures q <= NBUF && LinkedNext(next[q := n], Without(order, p))
  {
    WithoutMembers(order, p);
    var rest, next' := Without(order, p), next[q := n];
    forall k | 0 <= k < |rest|
      ensures next'[rest[k]] == Succ(rest, k)
    {
      var m := if k < p then k else k + 1;
      assert rest[k] == order[m] && next[order[m]] == Succ(order, m);
    }
  }

  lemma UnlinkPrev(prev: seq<nat>, order: seq<nat>, p: nat, n: nat, q: nat)
    requires LinkedPrev(prev, order) && p < |order| && n == Succ(order, p) && q == Pred(order, p)
    ensures n <= NBUF && LinkedPrev(prev[n := q], Without(order, p))
  {
    WithoutMembers(order, p);
    var rest, prev' := Without(order, p), prev[n := q];
    forall k | 0 <= k < |rest|
      ensures prev'[rest[k]] == Pred(rest, k)
    {
      var m := if k < p then k else k + 1;
      assert rest[k] == order[m] && prev[order[m]] == Pred(order, m);
    }
  }

  /** Bypassing buffer b leaves a circle through all the others, in the same order. */
  lemma UnlinkKeepsCircle(next: seq<nat>, prev: seq<nat>, order: seq<nat>, p: nat, n: nat, q: nat)
    requires Linked(next, prev, order) && p < |order| && n == next[order[p]] && q == prev[order[p]]
    ensures n <= NBUF && q <= NBUF
    ensures Linked(next[q := n], prev[n := q], Without(order, p))
  {
    UnlinkNext(next, order, p, n, q);
    UnlinkPrev(prev, order, p, n, q);
  }

  lemma PushMembers(order: seq<nat>, b: nat)
    requires Members(order) && b < NBUF && b !in order
    ensures Members([b] + order)
  {
  }

  lemma PushNext(next: seq<nat>, order: seq<nat>, b: nat)
    requires LinkedNext(next, order) && b < NBUF && b !in order
    ensures LinkedNext(next[b := next[HEAD]][HEAD := b], [b] + order)
  {
    PushMembers(order, b);
    var order', next' := [b] + order, next[b := next[HEAD]][HEAD := b];
    forall k | 0 <= k < |order'|
      ensures next'[order'[k]] == Succ(order', k)
    {
      if k > 0 {
        assert order'[k] == order[k - 1] && next[order[k - 1]] == Succ(order, k - 1);
      }
    }
  }

  lemma PushPrev(prev: seq<nat>, order: seq<nat>, b: nat)
    requires LinkedPrev(prev, order) && b < NBUF && b !in order
    ensures LinkedPrev(prev[b := HEAD][(if order == [] then HEAD else order[0]) := b], [b] + order)
  {
    PushMembers(order, b);
    var order', prev' := [b] + order, prev[b := HEAD][(if order == [] then HEAD else order[0]) := b];
    forall k | 0 <= k < |order'|
      ensures prev'[order'[k]] == Pred(order', k)
    {
      if k > 0 {
        assert order'[k] == order[k - 1] && prev[order[k - 1]] == Pred(order, k - 1);
      }
    }
  }

  /** Inserting a buffer right after the head puts it first on the circle. */
  lemma PushFrontKeepsCircle(next: seq<nat>, prev: seq<nat>, order: seq<nat>, b: nat)
    requires Linked(next, prev, order) && b < NBUF && b !in order
    ensures Linked(next[b := next[HEAD]][HEAD := b], prev[b := HEAD][next[HEAD] := b], [b] + order)
  {
    PushNext(next, order, b);
    PushPrev(prev, order, b);
  }

  // ------------------------------------------------------------------ recency

  /** When buffer b was last released for good, as a position in the release history. */
  ghost function LastRelease(h: seq<nat>, b: nat): (r: int)
    ensures -1 <= r < |h|
    ensures r >= 0 ==> h[r] == b
    ensures forall k | r < k < |h| :: h[k] != b
  {
    if h == [] then -1
    else if h[|h| - 1] == b then |h| - 1
    else LastRelease(h[..|h| - 1], b)
  }

  ghost predicate MostRecentFirst(h: seq<nat>, order: seq<nat>) {
    forall j, k {:trigger LastRelease(h, order[j]), LastRelease(h, order[k])} | 0 <= j < k < |order| ::
      LastRelease(h, order[j]) > LastRelease(h, order[k])
  }

  /** Moving the released buffer to the front keeps the list sorted by last release. */
  lemma ReleaseKeepsRecency(h: seq<nat>, order: seq<nat>, p: nat)
    requires MostRecentFirst(h, order) && Distinct(order) && p < |order|
    ensures MostRecentFirst(h + [order[p]], [order[p]] + Without(order, p))
  {
    PushKeepsRecency(h, Without(order, p), order[p]);
  }

  lemma PushKeepsRecency(h: seq<nat>, order: seq<nat>, b: nat)
    requires MostRecentFirst(h, order) && b !in order
    ensures MostRecentFirst(h + [b], [b] + order)
  {
    var h', order' := h + [b], [b] + order;
    assert h'[..|h'| - 1] == h;
    forall j, k | 0 <= j < k < |order'|
      ensures LastRelease(h', order'[j]) > LastRelease(h', order'[k])
    {
      assert order'[k] == order[k - 1];
      if j > 0 {
        assert order'[j] == order[j - 1];
      }
    }
  }

  // ------------------------------------------------------------------ the cache

  /** Buffer i is assigned to block bn of device d. */
  ghost predicate Holds(dev: seq<nat>, blockno: seq<nat>, i: nat, d: nat, bn: nat)
    requires |dev| == |blockno| == NBUF
  {
    i < NBUF && dev[i] == d && blockno[i] == bn
  }

  /** At most one buffer holds a block of a real device (unused buffers all say device 0). */
  ghost predicate Unique(dev: seq<nat>, blockno: seq<nat>)
    requires |dev| == |blockno| == NBUF
  {
    forall i, j | 0 <= i < j < NBUF && dev[i] == dev[j] && blockno[i] == blockno[j] :: dev[i] == 0
  }

  lemma RetargetKeepsUnique(dev: seq<nat>, blockno: seq<nat>, b: nat, d: nat, bn: nat)
    requires |dev| == |blockno| == NBUF && Unique(dev, blockno) && b < NBUF
    requires forall i | 0 <= i < NBUF :: !Holds(dev, blockno, i, d, bn)
    ensures Unique(dev[b := d], blockno[b := bn])
  {
    forall i | 0 <= i < NBUF ensures !(dev[i] == d && blockno[i] == bn) {
      assert !Holds(dev, blockno, i, d, bn);
    }
  }

  class BCache {
    var next: seq<nat>      // of the buffers, then of the list head
    var prev: seq<nat>
    var refcnt: seq<nat>
    var valid: seq<bool>
    var dev: seq<nat>
    var blockno: seq<nat>
    var data: seq<Block>
    var disk: Disk          // what the device holds

    ghost var order: seq<nat>     // the buffers from head.next to head.prev
    ghost var releases: seq<nat>  // buffers in the order of their final releases
    ghost var pins: seq<nat>      // how many of a buffer's references came from bpin
    ghost var writes: seq<Write>  // every block write sent to the disk

    /** The list is one circle of exactly the NBUF buffers, most recently released first. */
    ghost predicate ListOk()
      reads this`next, this`prev, this`order, this`releases
    {
      && Linked(next, prev, order)
      && |order| == NBUF
      && (forall i | 0 <= i < NBUF :: i in order)
      && MostRecentFirst(releases, order)
    }

    ghost predicate Shape()
      reads this
    {
      |refcnt| == |valid| == |dev| == |blockno| == |data| == |pins| == NBUF
    }

    ghost predicate Valid()
      reads this
    {
      && Shape()
      && ListOk()
      && (forall i | 0 <= i < NBUF :: pins[i] <= refcnt[i])
      && Unique(dev, blockno)
    }

    /** binit over a disk: every buffer unused, on one circle. */
    constructor (disk: Disk)
      ensures Valid()
      ensures this.disk == disk && writes == []
      ensures forall i | 0 <= i < NBUF :: refcnt[i] == 0 && pins[i] == 0 && !valid[i] && dev[i] == 0 && blockno[i] == 0
    {
      this.disk := disk;
      refcnt := seq(NBUF, _ => 0);
      valid := seq(NBUF, _ => false);
      dev := seq(NBUF, _ => 0);
      blockno := seq(NBUF, _ => 0);
      data := seq(NBUF, _ => ZERO_BLOCK);
      next := seq(NBUF + 1, _ => HEAD);
      prev := seq(NBUF + 1, _ => HEAD);
      order, releases, writes := [], [], [];
      pins := seq(NBUF, _ => 0);
      new;
      LinkAll();
    }

    /** Push the buffers one by one at the front of the empty list. */
    method LinkAll()
      requires next == seq(NBUF + 1, _ => HEAD) && prev == seq(NBUF + 1, _ => HEAD) && order == [] && releases == []
      modifies this`next, this`prev, this`order, this`releases
      ensures ListOk()
    {
      var b := 0;
      while b < NBUF
        invariant 0 <= b <= NBUF
        invariant Linked(next, prev, order)
        invariant |order| == b
        invariant forall i | 0 <= i < NBUF :: i in order <==> i < b
        invariant MostRecentFirst(releases, order)
      {
        PushFrontKeepsCircle(next, prev, order, b);
        PushKeepsRecency(releases, order, b);
        PushFront(b);
        order, releases := [b] + order, releases + [b];
        b := b + 1;
      }
    }

    method PushFront(b: nat)
      requires |next| == |prev| == NBUF + 1 && b < NBUF && next[HEAD] <= NBUF
      modifies this`next, this`prev
      ensures next == old(next)[b := old(next)[HEAD]][HEAD := b]
      ensures prev == old(prev)[b := HEAD][old(next)[HEAD] := b]
    {
      next := next[b := next[HEAD]];
      prev := prev[b := HEAD];
      prev := prev[next[HEAD] := b];
      next := next[HEAD := b];
    }

    /** Find or recycle a buffer for a block; None is the panic for running out of buffers. */
    method Bget(d: nat, bn: nat) returns (r: Option<nat>)
      requires Valid()
      modifies this`refcnt, this`valid, this`dev, this`blockno
      ensures Valid()
      // a buffer somebody references keeps its block and its contents
      ensures forall i | 0 <= i < NBUF && old(refcnt[i]) > 0 ::
                dev[i] == old(dev[i]) && blockno[i] == old(blockno[i]) && valid[i] == old(valid[i])
      ensures r.None? <==> (forall i | 0 <= i < NBUF :: old(refcnt[i]) > 0 && !Holds(old(dev), old(blockno), i, d, bn))
      ensures r.None? ==> unchanged(this)
      ensures r.Some? ==>
                && Holds(dev, blockno, r.value, d, bn)
                && refcnt == old(refcnt)[r.value := old(refcnt)[r.value] + 1]
                && (forall i | 0 <= i < NBUF && i != r.value ::
                      dev[i] == old(dev[i]) && blockno[i] == old(blockno[i]) && valid[i] == old(valid[i]))
      // a cached block is found; otherwise the victim is the least recently released free buffer
      ensures r.Some? && Holds(old(dev), old(blockno), r.value, d, bn) ==> valid == old(valid)
      ensures r.Some? && !Holds(old(dev), old(blockno), r.value, d, bn) ==>
                && (forall i | 0 <= i < NBUF :: !Holds(old(dev), old(blockno), i, d, bn))
                && RecycledFrom(r.value, old(refcnt)) && !valid[r.value]
    {
      r := FindCached(d, bn);
      if r.Some? {
        refcnt := refcnt[r.value := refcnt[r.value] + 1];
        return;
      }
      r := FindVictim();
      if r.Some? {
        var b := r.value;
        RetargetKeepsUnique(dev, blockno, b, d, bn);
        dev := dev[b := d];
        blockno := blockno[b := bn];
        valid := valid[b := false];
        refcnt := refcnt[b := 1];
      }
    }

    /** Walk the list from its most recently used end, looking for the block. */
    method FindCached(d: nat, bn: nat) returns (r: Option<nat>)
      requires Shape() && ListOk()
      ensures r.Some? ==> Holds(dev, blockno, r.value, d, bn)
      ensures r.None? ==> forall i | 0 <= i < NBUF :: !Holds(dev, blockno, i, d, bn)
    {
      var b := next[HEAD];
      ghost var k := 0;
      while b != HEAD
        invariant 0 <= k <= NBUF
        invariant b == if k < NBUF then order[k] else HEAD
        invariant forall m | 0 <= m < k :: !Holds(dev, blockno, order[m], d, bn)
        decreases NBUF - k
      {
        if dev[b] == d && blockno[b] == bn {
          return Some(b);
        }
        b := next[b];
        k := k + 1;
      }
      forall i | 0 <= i < NBUF ensures !Holds(dev, blockno, i, d, bn) {
        assert i in order;
      }
      return None;
    }

    /** Walk the list from its least recently used end, looking for an unreferenced buffer. */
    method FindVictim() returns (r: Option<nat>)
      requires Shape() && ListOk()
      ensures r.Some? ==> RecycledFrom(r.value, refcnt)
      ensures r.None? ==> forall i | 0 <= i < NBUF :: refcnt[i] > 0
    {
      var b := prev[HEAD];
      ghost var k := NBUF;
      while b != HEAD
        invariant 0 <= k <= NBUF
        invariant b == if k > 0 then order[k - 1] else HEAD
        invariant forall m | k <= m < NBUF :: refcnt[order[m]] > 0
        decreases k
      {
        if refcnt[b] == 0 {
          forall j | 0 <= j < NBUF && j != b && refcnt[j] == 0
            ensures LastRelease(releases, b) < LastRelease(releases, j)
          {
            assert j in order;
            var m :| 0 <= m < NBUF && order[m] == j;
            assert m < k - 1;
          }
          return Some(b);
        }
        b := prev[b];
        k := k - 1;
      }
      forall i | 0 <= i < NBUF ensures refcnt[i] > 0 {
        assert i in order;
      }
      return None;
    }

    /** v was unreferenced, and of all unreferenced buffers the one released longest ago. */
    ghost predicate RecycledFrom(v: nat, refs: seq<nat>)
      requires |refs| == NBUF
      reads this
    {
      && v < NBUF && refs[v] == 0
      && forall j | 0 <= j < NBUF && j != v && refs[j] == 0 ::
           LastRelease(releases, v) < LastRelease(releases, j)
    }

    /** bget, then read the block from disk unless the buffer is already valid. */
    method Bread(d: nat, bn: nat) returns (r: Option<nat>)
      requires Valid()
      modifies this`refcnt, this`valid, this`dev, this`blockno, this`data
      ensures Valid()
      ensures r.None? <==> (forall i | 0 <= i < NBUF :: old(refcnt[i]) > 0 && !Holds(old(dev), old(blockno), i, d, bn))
      ensures r.None? ==> unchanged(this)
      ensures r.Some? ==>
                && Holds(dev, blockno, r.value, d, bn) && valid[r.value]
                && refcnt == old(refcnt)[r.value := old(refcnt)[r.value] + 1]
                && (forall i | 0 <= i < NBUF && i != r.value ::
                      dev[i] == old(dev[i]) && blockno[i] == old(blockno[i]) && valid[i] == old(valid[i])
                      && data[i] == old(data[i]))
                && data[r.value] == (if Holds(old(dev), old(blockno), r.value, d, bn) && old(valid)[r.value] then old(data[r.value]) else At(disk, bn))
                && (Holds(old(dev), old(blockno), r.value, d, bn) || (old(refcnt[r.value]) == 0 && forall i | 0 <= i < NBUF :: !Holds(old(dev), old(blockno), i, d, bn)))
    {
      r := Bget(d, bn);
      if r.Some? && !valid[r.value] {
        data := data[r.value := At(disk, bn)];
        valid := valid[r.value := true];
      }
    }

    /** The holder of a buffer overwrites its contents. */
    method SetData(i: nat, blk: Block)
      requires Valid() && i < NBUF && refcnt[i] > 0
      modifies this`data
      ensures Valid()
      ensures data == old(data)[i := blk]
    {
      data := data[i := blk];
    }

    method Bwrite(i: nat)
      requires Valid() && i < NBUF && refcnt[i] > 0
      modifies this`disk, this`writes
      ensures Valid()
      ensures disk == old(disk)[blockno[i] := data[i]]
      ensures writes == old(writes) + [Write(blockno[i], data[i])]
    {
      disk := disk[blockno[i] := data[i]];
      writes := writes + [Write(blockno[i], data[i])];
    }

    /** Drop a reference; the last one moves the buffer to the front of the list. */
    method Brelse(i: nat)
      requires Valid() && i < NBUF && refcnt[i] > pins[i]
      modifies this`refcnt, this`next, this`prev, this`order, this`releases
      ensures Valid()
      ensures refcnt == old(refcnt)[i := old(refcnt)[i] - 1]
      ensures releases == if refcnt[i] == 0 then old(releases) + [i] else old(releases)
      ensures refcnt[i] == 0 ==> order[0] == i
      ensures refcnt[i] > 0 ==> order == old(order)
    {
      refcnt := refcnt[i := refcnt[i] - 1];
      if refcnt[i] == 0 {
        MoveToFront(i);
      }
    }

    method MoveToFront(i: nat)
      requires ListOk() && i < NBUF
      modifies this`next, this`prev, this`order, this`releases
      ensures ListOk() && order[0] == i && releases == old(releases) + [i]
    {
      assert i in order;
      ghost var p :| 0 <= p < NBUF && order[p] == i;
      ghost var rest := Without(order, p);
      assert next[order[p]] == Succ(order, p) && prev[order[p]] == Pred(order, p);
      UnlinkKeepsCircle(next, prev, order, p, next[i], prev[i]);
      ReleaseKeepsRecency(releases, order, p);
      WithoutMembers(order, p);
      prev := prev[next[i] := prev[i]];
      next := next[prev[i] := next[i]];
      PushFrontKeepsCircle(next, prev, rest, i);
      PushFront(i);
      RestHolds(order, p);
      order, releases := [i] + rest, releases + [i];
    }

    method Bpin(i: nat)
      requires Valid() && i < NBUF
      modifies this`refcnt, this`pins
      ensures Valid()
      ensures refcnt == old(refcnt)[i := old(refcnt)[i] + 1]
      ensures pins == old(pins)[i := old(pins)[i] + 1]
    {
      refcnt := refcnt[i := refcnt[i] + 1];
      pins := pins[i := pins[i] + 1];
    }

    /** Drop a pin. Unlike brelse this never moves the buffer on the list. */
    method Bunpin(i: nat)
      requires Valid() && i < NBUF && pins[i] > 0
      modifies this`refcnt, this`pins
      ensures Valid()
      ensures refcnt == old(refcnt)[i := old(refcnt)[i] - 1]
      ensures pins == old(pins)[i := old(pins)[i] - 1]
    {
      refcnt := refcnt[i := refcnt[i] - 1];
      pins := pins[i := pins[i] - 1];
    }
  }
}
