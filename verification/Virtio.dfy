/** The disk driver of kernel/virtio_disk.c and the device behind it (sections 2.6 and 5.2 of VIRTIO
    1.1). Driver and device act on one memory, one method call being one uninterrupted action:
    the driver's under its lock, the device's at any time. Any run is a sequence of calls. */
module Virtio {
  import opened Blocks
  import opened Common
  import Counting

  const NUM := 8
  const WRAP := 0x1_0000
  const PENDING: Byte := 0xff

  type Id = x: int | 0 <= x < NUM
  type Buf = nat

  datatype Addr = Null | Op(i: Id) | Data(b: Buf) | Status(i: Id)
  datatype Desc = Desc(addr: Addr, len: nat, flags: nat, next: Id)
  datatype Req = Req(out: bool, sector: nat)
  datatype Info = Info(b: Option<Buf>, status: Byte)

  const CLEAR := Desc(Null, 0, 0, 0)

  /** Where a request is: k is the number of its ring entry, counted without wrap-around. */
  datatype Phase = Forming | Ready | Queued(k: nat) | Working | Used(k: nat, status: Byte) | Done

  /** A request and its three descriptors, the first of which is the key it is kept under. For a
      completed request `value` is what the device moved. */
  datatype Chain = Chain(mid: Id, last: Id, b: Buf, out: bool, sector: nat, phase: Phase, value: Block)

  /** The memory that driver and device share, the driver's own fields and the device's. */
  datatype Hw = Hw(
    desc: seq<Desc>, free: seq<bool>, info: seq<Info>, ops: seq<Req>, busy: set<Buf>,
    avail: seq<Id>, availIdx: nat, fetchIdx: nat,
    used: seq<Id>, usedIdx: nat, seenIdx: nat,
    mem: Disk, image: Disk)

  /** All requests not yet retired; which one holds each descriptor; unwrapped ring positions. */
  datatype Plan = Plan(chain: map<Id, Chain>, owner: seq<Option<Id>>,
                       queued: nat, fetched: nat, completed: nat, seen: nat)

  ghost predicate Shape(s: Hw) {
    |s.desc| == |s.free| == |s.info| == |s.ops| == |s.avail| == |s.used| == NUM
  }

  /** Each descriptor is free or is one of the three of exactly one chain. */
  ghost predicate Partition(free: seq<bool>, p: Plan) {
    && |free| == |p.owner| == NUM
    && (forall i: Id :: free[i] <==> p.owner[i].None?)
    && (forall i: Id | p.owner[i].Some? :: Inside(p, p.owner[i].value, i))
    && (forall h | h in p.chain :: Holds(p, h))
  }

  ghost predicate Inside(p: Plan, h: Id, i: Id) {
    h in p.chain && (i == h || i == p.chain[h].mid || i == p.chain[h].last)
  }

  ghost predicate Holds(p: Plan, h: Id)
    requires |p.owner| == NUM && h in p.chain
  {
    var c := p.chain[h];
    && h != c.mid && h != c.last && c.mid != c.last
    && p.owner[h] == p.owner[c.mid] == p.owner[c.last] == Some(h)
  }

  function CountTrue(s: seq<bool>): (n: nat)
    ensures n <= |s|
  {
    if s == [] then 0 else CountTrue(s[..|s| - 1]) + if s[|s| - 1] then 1 else 0
  }

  /** What the driver has written for the device: request header, data, status byte. */
  ghost predicate Formatted(s: Hw, h: Id, c: Chain)
    requires Shape(s)
  {
    && s.ops[h] == Req(c.out, c.sector)
    && s.desc[h] == Desc(Op(h), 16, 1, c.mid)
    && s.desc[c.mid] == Desc(Data(c.b), BSIZE, if c.out then 1 else 3, c.last)
    && s.desc[c.last] == Desc(Status(h), 1, 2, 0)
    && s.info[h].b == Some(c.b)
  }

  /** The buffer's disk flag, the status byte and the data agree with the phase. */
  ghost predicate InStep(s: Hw, h: Id, c: Chain)
    requires Shape(s)
  {
    && (c.b in s.busy <==> !c.phase.Forming? && !c.phase.Done?)
    && (!c.phase.Forming? ==> Formatted(s, h, c))
    && (c.phase.Ready? || c.phase.Queued? || c.phase.Working? ==> s.info[h].status == PENDING)
    && (c.phase.Used? ==> s.info[h].status == c.phase.status)
    && (c.phase.Done? || (c.phase.Used? && c.phase.status == 0) ==> At(s.mem, c.b) == c.value)
  }

  ghost predicate Chains(s: Hw, p: Plan)
    requires Shape(s)
  {
    && (forall h | h in p.chain :: InStep(s, h, p.chain[h]))
    && (forall g, h | g in p.chain && h in p.chain && g != h :: p.chain[g].b != p.chain[h].b)
  }

  ghost predicate IndexesWrap(s: Hw, p: Plan) {
    && s.availIdx == p.queued % WRAP && s.fetchIdx == p.fetched % WRAP
    && s.usedIdx == p.completed % WRAP && s.seenIdx == p.seen % WRAP
  }

  /** Entries queued and not fetched are in the avail ring, each where its number says. */
  ghost predicate AvailOk(avail: seq<Id>, p: Plan)
    requires |avail| == NUM
  {
    && p.fetched <= p.queued
    && (forall h | h in p.chain && p.chain[h].phase.Queued? ::
          p.fetched <= p.chain[h].phase.k < p.queued && avail[Slot(p.chain[h].phase.k)] == h)
    && (forall k | p.fetched <= k < p.queued ::
          avail[Slot(k)] in p.chain && p.chain[avail[Slot(k)]].phase == Queued(k))
  }

  ghost predicate UsedOk(used: seq<Id>, p: Plan)
    requires |used| == NUM
  {
    && p.seen <= p.completed
    && (forall h | h in p.chain && p.chain[h].phase.Used? ::
          p.seen <= p.chain[h].phase.k < p.completed && used[Slot(p.chain[h].phase.k)] == h)
    && (forall k | p.seen <= k < p.completed :: IsUsed(p, used[Slot(k)], k))
  }

  ghost predicate IsUsed(p: Plan, h: Id, k: nat) {
    h in p.chain && p.chain[h].phase.Used? && p.chain[h].phase.k == k
  }

  ghost predicate Inv(s: Hw, p: Plan) {
    && Shape(s) && |p.owner| == NUM
    && Partition(s.free, p)
    && CountTrue(s.free) + 3 * |p.chain| == NUM
    && Chains(s, p)
    && IndexesWrap(s, p)
    && AvailOk(s.avail, p)
    && UsedOk(s.used, p)
  }

  function Slot(k: nat): (r: Id) {
    k % NUM
  }

  /** A ring index that wraps at 16 bits still names the slot of the unwrapped count. */
  lemma WrapKeepsSlot(k: nat)
    ensures Slot(k % WRAP) == Slot(k)
    ensures (k % WRAP + 1) % WRAP == (k + 1) % WRAP
  {
    assert k == k / WRAP * WRAP + k % WRAP;
    var q := k / WRAP;
    assert k == NUM * (q * 8192) + k % WRAP;
    assert (NUM * (q * 8192) + k % WRAP) % NUM == (k % WRAP) % NUM;
  }

  /** Two counts less than a lap apart are equal when their wrapped forms are. */
  lemma WrapKeepsOrder(a: nat, b: nat)
    requires a <= b < a + WRAP
    ensures a % WRAP == b % WRAP <==> a == b
  {
  }

  lemma SlotsDiffer(a: nat, b: nat)
    requires a < b < a + NUM
    ensures Slot(a) != Slot(b)
  {
  }

  // ---- how many requests there can be

  lemma AtMostTwo(s: Hw, p: Plan)
    requires Inv(s, p)
    ensures |p.chain| <= 2
  {
  }

  /** At most two entries of either ring are waiting, so its eight slots are never overrun. */
  lemma FewWaiting(s: Hw, p: Plan)
    requires Inv(s, p)
    ensures 0 <= p.queued - p.fetched <= 2 && 0 <= p.completed - p.seen <= 2
  {
    if p.queued - p.fetched > 2 {
      var k := p.fetched;
      ThreeTooMany(p, s.avail[Slot(k)], s.avail[Slot(k + 1)], s.avail[Slot(k + 2)]);
    }
    if p.completed - p.seen > 2 {
      var k := p.seen;
      assert IsUsed(p, s.used[Slot(k)], k) && IsUsed(p, s.used[Slot(k + 1)], k + 1) && IsUsed(p, s.used[Slot(k + 2)], k + 2);
      ThreeTooMany(p, s.used[Slot(k)], s.used[Slot(k + 1)], s.used[Slot(k + 2)]);
    }
  }

  lemma ThreeTooMany(p: Plan, a: Id, b: Id, c: Id)
    requires a in p.chain && b in p.chain && c in p.chain && a != b && a != c && b != c
    ensures |p.chain| >= 3
  {
    Counting.SubsetSize({a, b, c}, p.chain.Keys);
  }

  // ---- the steps

  function Rephase(p: Plan, h: Id, phase: Phase): (r: Plan)
    requires h in p.chain
  {
    p.(chain := p.chain[h := p.chain[h].(phase := phase)])
  }

  /** The driver tells the device of a formatted chain. */
  function Published(s: Hw, h: Id): (r: Hw)
    requires Shape(s)
  {
    s.(avail := s.avail[Slot(s.availIdx) := h], availIdx := (s.availIdx + 1) % WRAP)
  }

  ghost function PublishedPlan(p: Plan, h: Id): (q: Plan)
    requires h in p.chain
    ensures OnlyChanged(p, q, h)
  {
    Rephase(p, h, Queued(p.queued)).(queued := p.queued + 1)
  }

  lemma PublishKeeps(s: Hw, p: Plan, h: Id)
    requires Inv(s, p) && h in p.chain && p.chain[h].phase.Ready?
    ensures Inv(Published(s, h), PublishedPlan(p, h))
  {
    hide CountTrue, Partition, AvailOk, UsedOk, Slot, Chains;
    FewWaiting(s, p);
    WrapKeepsSlot(p.queued);
    var q := PublishedPlan(p, h);
    PartitionFrame(s.free, p, q, h);
    PublishChains(s, p, h);
    AvailGrows(s.avail, p, q, h);
    UsedFrame(s.used, p, q, h);
  }

  lemma PublishChains(s: Hw, p: Plan, h: Id)
    requires Shape(s) && Chains(s, p) && h in p.chain && p.chain[h].phase.Ready?
    ensures Chains(Published(s, h), PublishedPlan(p, h))
  {
    assert InStep(s, h, p.chain[h]);
    ChainsFrame(s, p, Published(s, h), PublishedPlan(p, h), h);
  }

  lemma AvailGrows(avail: seq<Id>, p: Plan, q: Plan, h: Id)
    requires |avail| == NUM && AvailOk(avail, p) && p.queued - p.fetched < NUM
    requires OnlyChanged(p, q, h) && !p.chain[h].phase.Queued? && q.chain[h].phase == Queued(p.queued)
    requires q.fetched == p.fetched && q.queued == p.queued + 1
    ensures AvailOk(avail[Slot(p.queued) := h], q)
  {
    forall k | p.fetched <= k < p.queued ensures Slot(k) != Slot(p.queued) {
      SlotsDiffer(k, p.queued);
    }
  }

  ghost predicate OnlyChanged(p: Plan, q: Plan, h: Id) {
    && h in p.chain && q.chain.Keys == p.chain.Keys && q.owner == p.owner
    && q.chain[h].mid == p.chain[h].mid && q.chain[h].last == p.chain[h].last && q.chain[h].b == p.chain[h].b
    && forall g | g in p.chain && g != h :: q.chain[g] == p.chain[g]
  }

  lemma PartitionFrame(free: seq<bool>, p: Plan, q: Plan, h: Id)
    requires Partition(free, p) && OnlyChanged(p, q, h)
    ensures Partition(free, q) && |q.chain| == |p.chain|
  {
    hide Inside, Holds;
    assert |q.chain.Keys| == |p.chain.Keys|;
    forall i: Id | q.owner[i].Some? ensures Inside(q, q.owner[i].value, i) {
      InsideFrame(p, q, h, q.owner[i].value, i);
    }
    forall g | g in q.chain ensures Holds(q, g) {
      HoldsFrame(p, q, h, g);
    }
  }

  lemma InsideFrame(p: Plan, q: Plan, h: Id, g: Id, i: Id)
    requires OnlyChanged(p, q, h) && Inside(p, g, i)
    ensures Inside(q, g, i)
  {
  }

  lemma HoldsFrame(p: Plan, q: Plan, h: Id, g: Id)
    requires |p.owner| == NUM && OnlyChanged(p, q, h) && g in p.chain && Holds(p, g)
    ensures Holds(q, g)
  {
  }

  /** Only request h changed, and it is in step: then all are. */
  lemma ChainsFrame(s: Hw, p: Plan, t: Hw, q: Plan, h: Id)
    requires Shape(s) && Shape(t) && Chains(s, p)
    requires OnlyChanged(p, q, h)
    requires InStep(t, h, q.chain[h])
    requires forall g | g in p.chain && g != h :: SameFor(s, t, g, p.chain[g])
    ensures Chains(t, q)
  {
    hide Formatted;
    forall g | g in q.chain ensures InStep(t, g, q.chain[g]) {
      if g != h {
        assert InStep(s, g, p.chain[g]) && SameFor(s, t, g, p.chain[g]);
      }
    }
  }

  ghost predicate SameFor(s: Hw, t: Hw, g: Id, c: Chain)
    requires Shape(s) && Shape(t)
  {
    && (Formatted(s, g, c) ==> Formatted(t, g, c))
    && (c.b in s.busy <==> c.b in t.busy)
    && s.info[g] == t.info[g]
    && At(s.mem, c.b) == At(t.mem, c.b)
  }

  lemma UsedFrame(used: seq<Id>, p: Plan, q: Plan, h: Id)
    requires |used| == NUM && UsedOk(used, p)
    requires OnlyChanged(p, q, h) && !p.chain[h].phase.Used? && !q.chain[h].phase.Used?
    requires q.seen == p.seen && q.completed == p.completed
    ensures UsedOk(used, q)
  {
    forall k | q.seen <= k < q.completed ensures IsUsed(q, used[Slot(k)], k) {
      assert IsUsed(p, used[Slot(k)], k);
    }
  }

  lemma AvailFrame(avail: seq<Id>, p: Plan, q: Plan, h: Id)
    requires |avail| == NUM && AvailOk(avail, p)
    requires OnlyChanged(p, q, h) && !p.chain[h].phase.Queued? && !q.chain[h].phase.Queued?
    requires q.fetched == p.fetched && q.queued == p.queued
    ensures AvailOk(avail, q)
  {
  }

  /** The device takes the next entry of the avail ring. */
  function Fetched(s: Hw): (r: Hw) {
    s.(fetchIdx := (s.fetchIdx + 1) % WRAP)
  }

  ghost function FetchedPlan(p: Plan, h: Id): (q: Plan)
    requires h in p.chain
    ensures OnlyChanged(p, q, h)
  {
    Rephase(p, h, Working).(fetched := p.fetched + 1)
  }

  lemma FetchKeeps(s: Hw, p: Plan)
    requires Inv(s, p) && s.fetchIdx != s.availIdx
    ensures var h := s.avail[Slot(s.fetchIdx)];
            && h in p.chain && p.chain[h].phase == Queued(p.fetched)
            && Inv(Fetched(s), FetchedPlan(p, h))
  {
    hide CountTrue, Partition, UsedOk, Slot, Chains, AvailOk;
    FewWaiting(s, p);
    WrapKeepsSlot(p.fetched);
    WrapKeepsOrder(p.fetched, p.queued);
    AvailHead(s.avail, p);
    var h := s.avail[Slot(p.fetched)];
    var q := FetchedPlan(p, h);
    PartitionFrame(s.free, p, q, h);
    FetchChains(s, p, h);
    UsedFrame(s.used, p, q, h);
    AvailShrinks(s.avail, p, q, h);
  }

  lemma AvailHead(avail: seq<Id>, p: Plan)
    requires |avail| == NUM && AvailOk(avail, p) && p.fetched < p.queued
    ensures var h := avail[Slot(p.fetched)]; h in p.chain && p.chain[h].phase == Queued(p.fetched)
  {
  }

  lemma FetchChains(s: Hw, p: Plan, h: Id)
    requires Shape(s) && Chains(s, p) && h in p.chain && p.chain[h].phase.Queued?
    ensures Chains(Fetched(s), FetchedPlan(p, h))
  {
    assert InStep(s, h, p.chain[h]);
    ChainsFrame(s, p, Fetched(s), FetchedPlan(p, h), h);
  }

  lemma AvailShrinks(avail: seq<Id>, p: Plan, q: Plan, h: Id)
    requires |avail| == NUM && AvailOk(avail, p) && p.fetched < p.queued
    requires OnlyChanged(p, q, h) && p.chain[h].phase == Queued(p.fetched) && !q.chain[h].phase.Queued?
    requires q.fetched == p.fetched + 1 && q.queued == p.queued
    ensures AvailOk(avail, q)
  {
  }

  /** What the device finds when it follows the descriptors from h: a header that it reads, a block of
      data that it writes exactly for a read, and a status byte that it writes. */
  ghost predicate Reads(s: Hw, h: Id, b: Buf, out: bool, sector: nat)
    requires Shape(s)
  {
    var mid := s.desc[s.desc[h].next];
    && s.desc[h].len == 16 && mid.len == BSIZE && s.desc[mid.next].len == 1
    && s.desc[h].flags == 1 && mid.flags % 2 == 1 && s.desc[mid.next].flags == 2
    && s.desc[h].addr.Op? && s.ops[s.desc[h].addr.i] == Req(out, sector)
    && mid.addr == Data(b) && (mid.flags >= 2 <==> !out)
    && s.desc[mid.next].addr == Status(h)
  }

  /** The device moves the data and reports in the used ring. */
  function Completed(s: Hw, h: Id, b: Buf, out: bool, sector: nat, status: Byte): (r: Hw)
    requires Shape(s)
  {
    s.(used := s.used[Slot(s.usedIdx) := h], usedIdx := (s.usedIdx + 1) % WRAP,
       info := s.info[h := s.info[h].(status := status)],
       mem := if status == 0 && !out then s.mem[b := At(s.image, sector)] else s.mem,
       image := if status == 0 && out then s.image[sector := At(s.mem, b)] else s.image)
  }

  ghost function CompletedPlan(p: Plan, h: Id, status: Byte, value: Block): (q: Plan)
    requires h in p.chain
    ensures OnlyChanged(p, q, h)
  {
    p.(chain := p.chain[h := p.chain[h].(phase := Used(p.completed, status), value := value)],
       completed := p.completed + 1)
  }

  lemma CompleteKeeps(s: Hw, p: Plan, h: Id, status: Byte)
    requires Inv(s, p) && h in p.chain && p.chain[h].phase.Working?
    ensures var c := p.chain[h];
            var t := Completed(s, h, c.b, c.out, c.sector, status);
            && Reads(s, h, c.b, c.out, c.sector)
            && Inv(t, CompletedPlan(p, h, status, At(t.mem, c.b)))
            && (status == 0 ==> At(t.image, c.sector) == At(t.mem, c.b))
  {
    hide CountTrue, Partition, AvailOk, UsedOk, Slot, Chains;
    FewWaiting(s, p);
    WrapKeepsSlot(p.completed);
    var c := p.chain[h];
    var t := Completed(s, h, c.b, c.out, c.sector, status);
    var q := CompletedPlan(p, h, status, At(t.mem, c.b));
    PartitionFrame(s.free, p, q, h);
    CompleteChains(s, p, h, status);
    AvailFrame(s.avail, p, q, h);
    UsedGrows(s.used, p, q, h, status);
  }

  lemma CompleteChains(s: Hw, p: Plan, h: Id, status: Byte)
    requires Shape(s) && Chains(s, p) && h in p.chain && p.chain[h].phase.Working?
    ensures var c := p.chain[h];
            var t := Completed(s, h, c.b, c.out, c.sector, status);
            Reads(s, h, c.b, c.out, c.sector) && Chains(t, CompletedPlan(p, h, status, At(t.mem, c.b)))
  {
    hide Slot;
    var c := p.chain[h];
    var t := Completed(s, h, c.b, c.out, c.sector, status);
    assert InStep(s, h, c);
    ChainsFrame(s, p, t, CompletedPlan(p, h, status, At(t.mem, c.b)), h);
  }

  lemma UsedGrows(used: seq<Id>, p: Plan, q: Plan, h: Id, status: Byte)
    requires |used| == NUM && UsedOk(used, p) && p.completed - p.seen < NUM
    requires OnlyChanged(p, q, h) && !p.chain[h].phase.Used? && q.chain[h].phase == Used(p.completed, status)
    requires q.seen == p.seen && q.completed == p.completed + 1
    ensures UsedOk(used[Slot(p.completed) := h], q)
  {
    forall k | p.seen <= k < p.completed
      ensures Slot(k) != Slot(p.completed) && IsUsed(q, used[Slot(k)], k)
    {
      SlotsDiffer(k, p.completed);
      assert IsUsed(p, used[Slot(k)], k);
    }
  }

  /** The driver's interrupt handler takes the next entry of the used ring. */
  function Seen(s: Hw, b: Buf): (r: Hw) {
    s.(busy := s.busy - {b}, seenIdx := (s.seenIdx + 1) % WRAP)
  }

  ghost function SeenPlan(p: Plan, h: Id): (q: Plan)
    requires h in p.chain
    ensures OnlyChanged(p, q, h)
  {
    Rephase(p, h, Done).(seen := p.seen + 1)
  }

  lemma SeeKeeps(s: Hw, p: Plan)
    requires Inv(s, p) && s.seenIdx != s.usedIdx
    ensures var h := s.used[Slot(s.seenIdx)];
            && IsUsed(p, h, p.seen)
            && s.info[h] == Info(Some(p.chain[h].b), p.chain[h].phase.status)
            && (s.info[h].status == 0 ==> Inv(Seen(s, p.chain[h].b), SeenPlan(p, h)))
  {
    hide Inv, Slot;
    Sizes(s, p);
    SeeEntry(s, p);
    var h := s.used[Slot(s.seenIdx)];
    if s.info[h].status == 0 {
      SeeInv(s, p, h);
    }
  }

  /** The next entry of the used ring is a completed request, with its buffer on record. */
  lemma SeeEntry(s: Hw, p: Plan)
    requires Inv(s, p) && s.seenIdx != s.usedIdx
    ensures var h := s.used[Slot(s.seenIdx)];
            && p.seen < p.completed && IsUsed(p, h, p.seen)
            && s.info[h] == Info(Some(p.chain[h].b), p.chain[h].phase.status)
  {
    hide CountTrue, Partition, AvailOk, Slot, Chains, UsedOk;
    FewWaiting(s, p);
    WrapKeepsSlot(p.seen);
    WrapKeepsOrder(p.seen, p.completed);
    UsedHead(s.used, p);
    SeeChains(s, p, s.used[Slot(p.seen)]);
  }

  lemma SeeInv(s: Hw, p: Plan, h: Id)
    requires Inv(s, p) && p.seen < p.completed && IsUsed(p, h, p.seen) && s.info[h].status == 0
    ensures Inv(Seen(s, p.chain[h].b), SeenPlan(p, h))
  {
    hide CountTrue, Partition, AvailOk, Slot, Chains, UsedOk, InStep;
    var q := SeenPlan(p, h);
    WrapKeepsSlot(p.seen);
    SeeChains(s, p, h);
    PartitionFrame(s.free, p, q, h);
    AvailFrame(s.avail, p, q, h);
    UsedShrinks(s.used, p, q, h);
  }

  lemma UsedHead(used: seq<Id>, p: Plan)
    requires |used| == NUM && UsedOk(used, p) && p.seen < p.completed
    ensures IsUsed(p, used[Slot(p.seen)], p.seen)
  {
  }

  lemma SeeChains(s: Hw, p: Plan, h: Id)
    requires Shape(s) && Chains(s, p) && h in p.chain && p.chain[h].phase.Used?
    ensures s.info[h] == Info(Some(p.chain[h].b), p.chain[h].phase.status)
    ensures s.info[h].status == 0 ==> Chains(Seen(s, p.chain[h].b), SeenPlan(p, h))
  {
    assert InStep(s, h, p.chain[h]);
    if s.info[h].status == 0 {
      ChainsFrame(s, p, Seen(s, p.chain[h].b), SeenPlan(p, h), h);
    }
  }

  lemma UsedShrinks(used: seq<Id>, p: Plan, q: Plan, h: Id)
    requires |used| == NUM && UsedOk(used, p) && p.seen < p.completed
    requires OnlyChanged(p, q, h) && IsUsed(p, h, p.seen) && !q.chain[h].phase.Used?
    requires q.seen == p.seen + 1 && q.completed == p.completed
    ensures UsedOk(used, q)
  {
    forall k | q.seen <= k < q.completed ensures IsUsed(q, used[Slot(k)], k) {
      assert IsUsed(p, used[Slot(k)], k);
    }
  }

  // ---- taking, formatting and giving back descriptors

  lemma {:induction false} CountSet(s: seq<bool>, i: nat, v: bool)
    requires i < |s| && s[i] != v
    ensures CountTrue(s[i := v]) == CountTrue(s) + if v then 1 else -1
  {
    var last := |s| - 1;
    if i < last {
      CountSet(s[..last], i, v);
      assert s[i := v][..last] == s[..last][i := v];
    } else {
      assert s[i := v][..last] == s[..last];
    }
  }

  lemma {:induction false} CountZero(s: seq<bool>)
    ensures CountTrue(s) == 0 <==> forall i | 0 <= i < |s| :: !s[i]
  {
    if s != [] {
      CountZero(s[..|s| - 1]);
    }
  }

  function SetThree<T>(s: seq<T>, x: Id, u: T, y: Id, v: T, z: Id, w: T): (r: seq<T>)
    requires |s| == NUM
    ensures |r| == NUM
    ensures forall i: Id | i != x && i != y && i != z :: r[i] == s[i]
    ensures x != y && x != z && y != z ==> r[x] == u && r[y] == v && r[z] == w
  {
    s[x := u][y := v][z := w]
  }

  lemma CountThree(s: seq<bool>, x: Id, y: Id, z: Id, v: bool)
    requires |s| == NUM && x != y && x != z && y != z && s[x] == s[y] == s[z] == !v
    ensures CountTrue(SetThree(s, x, v, y, v, z, v)) == CountTrue(s) + if v then 3 else -3
  {
    hide CountTrue;
    CountSet(s, x, v);
    CountSet(s[x := v], y, v);
    CountSet(s[x := v][y := v], z, v);
  }

  ghost function StartedPlan(p: Plan, h: Id, mid: Id, last: Id, b: Buf, out: bool, sector: nat): (q: Plan)
    requires |p.owner| == NUM
  {
    p.(chain := p.chain[h := Chain(mid, last, b, out, sector, Forming, ZERO_BLOCK)],
       owner := SetThree(p.owner, h, Some(h), mid, Some(h), last, Some(h)))
  }

  lemma StartKeeps(s: Hw, p: Plan, h: Id, mid: Id, last: Id, b: Buf, out: bool, sector: nat)
    requires Inv(s, p) && s.free[h] && s.free[mid] && s.free[last]
    requires h != mid && h != last && mid != last
    requires b !in s.busy && forall g | g in p.chain :: p.chain[g].b != b
    ensures Inv(s.(free := SetThree(s.free, h, false, mid, false, last, false)),
                StartedPlan(p, h, mid, last, b, out, sector))
  {
    hide CountTrue, Formatted, SetThree, Slot, AvailOk, UsedOk, Chains;
    CountThree(s.free, h, mid, last, false);
    StartPartition(s.free, p, h, mid, last, b, out, sector);
    StartChains(s, p, h, mid, last, b, out, sector);
    StartRings(s, p, h, mid, last, b, out, sector);
  }

  lemma StartChains(s: Hw, p: Plan, h: Id, mid: Id, last: Id, b: Buf, out: bool, sector: nat)
    requires Shape(s) && Chains(s, p) && |p.owner| == NUM
    requires b !in s.busy && forall g | g in p.chain :: p.chain[g].b != b
    ensures Chains(s.(free := SetThree(s.free, h, false, mid, false, last, false)),
                   StartedPlan(p, h, mid, last, b, out, sector))
  {
    hide Formatted, SetThree;
    var q := StartedPlan(p, h, mid, last, b, out, sector);
    var t := s.(free := SetThree(s.free, h, false, mid, false, last, false));
    forall g | g in q.chain ensures InStep(t, g, q.chain[g]) {
      if g != h {
        assert InStep(s, g, p.chain[g]);
        FormattedFrame(s, t, g, p.chain[g]);
      }
    }
  }

  lemma StartRings(s: Hw, p: Plan, h: Id, mid: Id, last: Id, b: Buf, out: bool, sector: nat)
    requires Shape(s) && |p.owner| == NUM && h !in p.chain && AvailOk(s.avail, p) && UsedOk(s.used, p)
    ensures AvailOk(s.avail, StartedPlan(p, h, mid, last, b, out, sector))
    ensures UsedOk(s.used, StartedPlan(p, h, mid, last, b, out, sector))
  {
    hide SetThree, Slot;
    var q := StartedPlan(p, h, mid, last, b, out, sector);
    forall k | q.seen <= k < q.completed ensures IsUsed(q, s.used[Slot(k)], k) {
      assert IsUsed(p, s.used[Slot(k)], k);
    }
  }

  lemma FormattedFrame(s: Hw, t: Hw, g: Id, c: Chain)
    requires Shape(s) && Shape(t) && t.ops[g] == s.ops[g] && t.info[g].b == s.info[g].b
    requires t.desc[g] == s.desc[g] && t.desc[c.mid] == s.desc[c.mid] && t.desc[c.last] == s.desc[c.last]
    ensures Formatted(s, g, c) ==> Formatted(t, g, c)
  {
  }

  lemma StartPartition(free: seq<bool>, p: Plan, h: Id, mid: Id, last: Id, b: Buf, out: bool, sector: nat)
    requires Partition(free, p) && free[h] && free[mid] && free[last]
    requires h != mid && h != last && mid != last
    ensures h !in p.chain
    ensures var q := StartedPlan(p, h, mid, last, b, out, sector);
            && Partition(SetThree(free, h, false, mid, false, last, false), q)
            && |q.chain| == |p.chain| + 1
  {
    hide SetThree, Holds, Inside;
    assert h !in p.chain by {
      NotHead(free, p, h);
    }
    StartInside(free, p, h, mid, last, b, out, sector);
  }

  lemma NotHead(free: seq<bool>, p: Plan, h: Id)
    requires Partition(free, p) && free[h]
    ensures h !in p.chain
  {
    assert h in p.chain ==> Holds(p, h);
  }

  lemma StartInside(free: seq<bool>, p: Plan, h: Id, mid: Id, last: Id, b: Buf, out: bool, sector: nat)
    requires Partition(free, p) && free[h] && free[mid] && free[last] && h !in p.chain
    requires h != mid && h != last && mid != last
    ensures var q := StartedPlan(p, h, mid, last, b, out, sector);
            && (forall i: Id | q.owner[i].Some? :: Inside(q, q.owner[i].value, i))
            && (forall g | g in q.chain :: Holds(q, g))
  {
    hide SetThree;
    var q := StartedPlan(p, h, mid, last, b, out, sector);
    forall i: Id | q.owner[i].Some? ensures Inside(q, q.owner[i].value, i) {
      if i != h && i != mid && i != last {
        assert Inside(p, p.owner[i].value, i);
      }
    }
    forall g | g in q.chain ensures Holds(q, g) {
      if g != h {
        assert Holds(p, g);
      }
    }
  }

  ghost predicate Outside(i: Id, h: Id, c: Chain) {
    i != h && i != c.mid && i != c.last
  }

  /** Two chains have no descriptor in common. */
  lemma ChainsDisjoint(free: seq<bool>, p: Plan, g: Id, h: Id)
    requires Partition(free, p) && g in p.chain && h in p.chain && g != h
    ensures var c, d := p.chain[g], p.chain[h];
            && Outside(g, h, d) && Outside(c.mid, h, d) && Outside(c.last, h, d)
  {
    assert Holds(p, g) && Holds(p, h);
  }

  function Filled(s: Hw, h: Id, c: Chain): (r: Hw)
    requires Shape(s)
  {
    s.(ops := s.ops[h := Req(c.out, c.sector)],
       desc := SetThree(s.desc, h, Desc(Op(h), 16, 1, c.mid),
                        c.mid, Desc(Data(c.b), BSIZE, if c.out then 1 else 3, c.last),
                        c.last, Desc(Status(h), 1, 2, 0)),
       info := s.info[h := Info(Some(c.b), PENDING)],
       busy := s.busy + {c.b})
  }

  lemma FillKeeps(s: Hw, p: Plan, h: Id)
    requires Inv(s, p) && h in p.chain && p.chain[h].phase.Forming?
    ensures Inv(Filled(s, h, p.chain[h]), Rephase(p, h, Ready))
  {
    hide CountTrue, Formatted, AvailOk, UsedOk, SetThree, Slot, Partition, Chains;
    var q := Rephase(p, h, Ready);
    PartitionFrame(s.free, p, q, h);
    FillChains(s, p, h);
    AvailFrame(s.avail, p, q, h);
    UsedFrame(s.used, p, q, h);
  }

  lemma FillChains(s: Hw, p: Plan, h: Id)
    requires Shape(s) && Partition(s.free, p) && Chains(s, p) && h in p.chain && p.chain[h].phase.Forming?
    ensures Chains(Filled(s, h, p.chain[h]), Rephase(p, h, Ready))
  {
    hide Formatted, SetThree, Partition;
    var t, q := Filled(s, h, p.chain[h]), Rephase(p, h, Ready);
    FillFormats(s, p, h);
    assert InStep(s, h, p.chain[h]);
    forall g | g in p.chain && g != h ensures SameFor(s, t, g, p.chain[g]) {
      ChainsDisjoint(s.free, p, g, h);
      FormattedFrame(s, t, g, p.chain[g]);
    }
    ChainsFrame(s, p, t, q, h);
  }

  lemma FillFormats(s: Hw, p: Plan, h: Id)
    requires Shape(s) && Partition(s.free, p) && h in p.chain
    ensures Formatted(Filled(s, h, p.chain[h]), h, p.chain[h].(phase := Ready))
  {
    assert Holds(p, h);
  }

  /** The driver forgets a finished request and frees its descriptors. */
  function Retired(s: Hw, h: Id, c: Chain): (r: Hw)
    requires Shape(s)
  {
    s.(info := s.info[h := s.info[h].(b := None)],
       desc := SetThree(s.desc, h, CLEAR, c.mid, CLEAR, c.last, CLEAR),
       free := SetThree(s.free, h, true, c.mid, true, c.last, true))
  }

  ghost function RetiredPlan(p: Plan, h: Id): (q: Plan)
    requires |p.owner| == NUM && h in p.chain
    ensures h !in q.chain
    ensures forall g | g in p.chain && g != h :: g in q.chain && q.chain[g] == p.chain[g]
    ensures forall g | g in q.chain :: g in p.chain
  {
    p.(chain := p.chain - {h},
       owner := SetThree(p.owner, h, None, p.chain[h].mid, None, p.chain[h].last, None))
  }

  lemma RetireKeeps(s: Hw, p: Plan, h: Id)
    requires Inv(s, p) && h in p.chain && p.chain[h].phase.Done?
    ensures Inv(Retired(s, h, p.chain[h]), RetiredPlan(p, h))
  {
    hide CountTrue, Formatted, SetThree, Slot, AvailOk, UsedOk, Chains, Partition;
    var c := p.chain[h];
    RetirePartition(s.free, p, h);
    CountThree(s.free, h, c.mid, c.last, true);
    RetireChains(s, p, h);
    RetireRings(s, p, RetiredPlan(p, h), h);
  }

  lemma RetireChains(s: Hw, p: Plan, h: Id)
    requires Shape(s) && |p.owner| == NUM && Partition(s.free, p) && Chains(s, p) && h in p.chain
    ensures Chains(Retired(s, h, p.chain[h]), RetiredPlan(p, h))
  {
    hide Formatted, SetThree, RetiredPlan, Partition;
    var c := p.chain[h];
    var t, q := Retired(s, h, c), RetiredPlan(p, h);
    forall g | g in q.chain ensures InStep(t, g, q.chain[g]) {
      assert InStep(s, g, p.chain[g]);
      ChainsDisjoint(s.free, p, g, h);
      FormattedFrame(s, t, g, p.chain[g]);
    }
  }

  lemma RetireRings(s: Hw, p: Plan, q: Plan, h: Id)
    requires Inv(s, p) && h in p.chain && p.chain[h].phase.Done?
    requires q == RetiredPlan(p, h)
    ensures AvailOk(s.avail, q) && UsedOk(s.used, q)
  {
    hide CountTrue, Formatted, SetThree, Slot, Partition, Chains;
    forall k | q.seen <= k < q.completed ensures IsUsed(q, s.used[Slot(k)], k) {
      assert IsUsed(p, s.used[Slot(k)], k);
    }
  }

  lemma RetirePartition(free: seq<bool>, p: Plan, h: Id)
    requires Partition(free, p) && h in p.chain
    ensures var c, q := p.chain[h], RetiredPlan(p, h);
            && h != c.mid && h != c.last && c.mid != c.last && !free[h] && !free[c.mid] && !free[c.last]
            && Partition(SetThree(free, h, true, c.mid, true, c.last, true), q)
            && |q.chain| == |p.chain| - 1
  {
    hide SetThree;
    var c, q := p.chain[h], RetiredPlan(p, h);
    assert Holds(p, h);
    assert q.chain.Keys == p.chain.Keys - {h};
    forall i: Id | q.owner[i].Some? ensures Inside(q, q.owner[i].value, i) {
      assert Inside(p, p.owner[i].value, i);
    }
    forall g | g in q.chain ensures Holds(q, g) {
      assert Holds(p, g);
    }
  }

  lemma ChainTaken(free: seq<bool>, p: Plan, g: Id)
    requires |free| == NUM && Partition(free, p) && g in p.chain
    ensures !free[g] && !free[p.chain[g].mid] && !free[p.chain[g].last]
  {
    assert Holds(p, g);
  }

  lemma ClearFreeKeeps(s: Hw, p: Plan, desc: seq<Desc>)
    requires Inv(s, p) && |desc| == NUM
    requires forall i: Id | !s.free[i] :: desc[i] == s.desc[i]
    ensures Inv(s.(desc := desc), p)
  {
    hide CountTrue, Formatted, Slot, AvailOk, UsedOk, Partition;
    var t := s.(desc := desc);
    forall g | g in p.chain ensures InStep(t, g, p.chain[g]) {
      assert InStep(s, g, p.chain[g]);
      ChainTaken(s.free, p, g);
      FormattedFrame(s, t, g, p.chain[g]);
    }
  }

  // ---- driver and device

  class VirtioDisk {
    var desc: seq<Desc>
    var free: seq<bool>
    var info: seq<Info>
    var ops: seq<Req>
    var busy: set<Buf> // buffers b with b->disk == 1
    var avail: seq<Id>
    var availIdx: nat
    var used: seq<Id>
    var usedIdx: nat
    var seenIdx: nat
    var fetchIdx: nat // the device's own place in the avail ring
    var mem: Disk // buffer contents
    var image: Disk // sectors
    ghost var p: Plan

    ghost function S(): (s: Hw)
      reads this
    {
      Hw(desc, free, info, ops, busy, avail, availIdx, fetchIdx, used, usedIdx, seenIdx, mem, image)
    }

    ghost predicate Valid()
      reads this
    {
      Inv(S(), p)
    }

    constructor (mem: Disk, image: Disk)
      ensures Valid() && p.chain == map[] && CountTrue(free) == NUM
      ensures this.mem == mem && this.image == image && busy == {}
    {
      desc := [CLEAR, CLEAR, CLEAR, CLEAR, CLEAR, CLEAR, CLEAR, CLEAR];
      free := [true, true, true, true, true, true, true, true];
      info := seq<Info>(NUM, _ => Info(None, 0));
      ops := seq<Req>(NUM, _ => Req(false, 0));
      avail, used := [0, 0, 0, 0, 0, 0, 0, 0], [0, 0, 0, 0, 0, 0, 0, 0];
      availIdx, usedIdx, seenIdx, fetchIdx, busy := 0, 0, 0, 0, {};
      this.mem, this.image := mem, image;
      p := Plan(map[], [None, None, None, None, None, None, None, None], 0, 0, 0, 0);
      new;
      CountAll(free);
    }

    /** alloc_desc: the first free descriptor, or -1. */
    method AllocDesc() returns (i: int)
      requires |free| == NUM
      modifies this`free
      ensures -1 <= i < NUM && (i == -1 <==> CountTrue(old(free)) == 0)
      ensures i == -1 ==> free == old(free)
      ensures i >= 0 ==> old(free)[i] && free == old(free)[i := false] && forall j | 0 <= j < i :: !free[j]
      ensures i >= 0 ==> CountTrue(free) == CountTrue(old(free)) - 1
    {
      hide CountTrue;
      CountZero(free);
      i := 0;
      while i < NUM
        invariant 0 <= i <= NUM && free == old(free) && forall j | 0 <= j < i :: !free[j]
      {
        if free[i] {
          CountSet(free, i, false);
          free := free[i := false];
          return i;
        }
        i := i + 1;
      }
      return -1;
    }

    /** free_desc: the descriptor is not free, so neither panic is reached. */
    method FreeDesc(i: Id)
      requires |free| == |desc| == NUM && !free[i]
      modifies this`free, this`desc
      ensures free == old(free)[i := true] && desc == old(desc)[i := CLEAR]
    {
      desc := desc[i := CLEAR];
      free := free[i := true];
    }

    /** alloc3_desc: three descriptors, or none and those taken are given back. */
    method Alloc3() returns (ok: bool, idx: seq<Id>)
      requires |free| == |desc| == NUM
      modifies this`free, this`desc
      ensures |free| == |desc| == NUM && (ok <==> CountTrue(old(free)) >= 3)
      ensures ok ==> |idx| == 3 && Fresh3(old(free), idx[0], idx[1], idx[2]) && desc == old(desc)
      ensures ok ==> free == SetThree(old(free), idx[0], false, idx[1], false, idx[2], false)
      ensures !ok ==> free == old(free) && forall i: Id | !free[i] :: desc[i] == old(desc)[i]
    {
      hide CountTrue, SetThree;
      idx := [];
      while |idx| < 3
        invariant |idx| <= 3 && |free| == NUM && desc == old(desc)
        invariant CountTrue(free) == CountTrue(old(free)) - |idx|
        invariant Took(old(free), free, idx)
      {
        var i := AllocDesc();
        if i < 0 {
          GiveBack(idx, old(free));
          return false, [];
        }
        idx := idx + [i];
      }
      ThreeTaken(old(free), free, idx);
      return true, idx;
    }

    method GiveBack(idx: seq<Id>, ghost was: seq<bool>)
      requires |desc| == |free| == |was| == NUM && Took(was, free, idx)
      modifies this`free, this`desc
      ensures |desc| == NUM && free == was
      ensures forall i: Id | !was[i] :: desc[i] == old(desc)[i]
    {
      var j := 0;
      while j < |idx|
        invariant 0 <= j <= |idx| && |desc| == |free| == NUM
        invariant Took(was, free, idx[j..])
        invariant forall i: Id | !was[i] :: desc[i] == old(desc)[i]
      {
        TookHead(was, free, idx[j..]);
        FreeDesc(idx[j]);
        assert idx[j..][1..] == idx[j + 1..];
        j := j + 1;
      }
    }

    /** virtio_disk_rw up to the point where three descriptors are in hand, or the process sleeps. */
    method Start(b: Buf, out: bool, blockno: Uint) returns (ok: bool, idx: seq<Id>)
      requires Valid() && b !in busy && forall g | g in p.chain :: p.chain[g].b != b
      modifies this`free, this`desc, this`p
      ensures Valid() && (ok <==> old(|p.chain|) <= 1)
      ensures !ok ==> p == old(p) && free == old(free)
      ensures ok ==> |idx| == 3 && Began(old(p), p, idx, b, out, SectorOf(blockno))
    {
      hide CountTrue, Inv, SetThree;
      ghost var s := S();
      Sizes(s, p);
      ok, idx := Alloc3();
      if ok {
        StartKeeps(s, p, idx[0], idx[1], idx[2], b, out, SectorOf(blockno));
        StartBegan(s, p, idx, b, out, SectorOf(blockno));
        p := StartedPlan(p, idx[0], idx[1], idx[2], b, out, SectorOf(blockno));
        assert S() == s.(free := SetThree(s.free, idx[0], false, idx[1], false, idx[2], false));
      } else {
        ClearFreeKeeps(s, p, desc);
        assert S() == s.(desc := desc);
      }
    }

    /** Writes the request header, the three descriptors and the book-keeping. */
    method Fill(idx: seq<Id>, b: Buf, out: bool, blockno: Uint)
      requires Valid() && |idx| == 3 && idx[0] in p.chain
      requires p.chain[idx[0]] == Chain(idx[1], idx[2], b, out, SectorOf(blockno), Forming, ZERO_BLOCK)
      modifies this`ops, this`desc, this`info, this`busy, this`p
      ensures Valid() && p == Rephase(old(p), idx[0], Ready) && busy == old(busy) + {b}
    {
      hide Inv, SetThree;
      ghost var s := S();
      Sizes(s, p);
      FillKeeps(s, p, idx[0]);
      WriteRequest(idx, b, out, blockno, p.chain[idx[0]]);
      p := Rephase(p, idx[0], Ready);
    }

    method WriteRequest(idx: seq<Id>, b: Buf, out: bool, blockno: Uint, ghost c: Chain)
      requires Shape(S()) && |idx| == 3 && c == Chain(idx[1], idx[2], b, out, SectorOf(blockno), Forming, ZERO_BLOCK)
      modifies this`ops, this`desc, this`info, this`busy
      ensures S() == Filled(old(S()), idx[0], c) && busy == old(busy) + {b}
    {
      hide SetThree;
      Format(idx, b, out, blockno);
      busy := busy + {b};
      info := info[idx[0] := Info(Some(b), PENDING)];
    }

    method Format(idx: seq<Id>, b: Buf, out: bool, blockno: Uint)
      requires |idx| == 3 && |ops| == |desc| == NUM
      modifies this`ops, this`desc
      ensures ops == old(ops)[idx[0] := Req(out, SectorOf(blockno))]
      ensures desc == SetThree(old(desc), idx[0], Desc(Op(idx[0]), 16, 1, idx[1]),
                               idx[1], Desc(Data(b), BSIZE, if out then 1 else 3, idx[2]),
                               idx[2], Desc(Status(idx[0]), 1, 2, 0))
    {
      ops := ops[idx[0] := Req(out, SectorOf(blockno))];
      desc := desc[idx[0] := Desc(Op(idx[0]), 16, 1, idx[1])];
      desc := desc[idx[1] := Desc(Data(b), BSIZE, if out then 1 else 3, idx[2])];
      desc := desc[idx[2] := Desc(Status(idx[0]), 1, 2, 0)];
    }

    /** The ring entry is written before the index that shows it to the device. */
    method Publish(h: Id)
      requires Valid() && h in p.chain && p.chain[h].phase.Ready?
      modifies this`avail, this`availIdx, this`p
      ensures Valid() && p == PublishedPlan(old(p), h)
      ensures SlotsKept(old(avail), avail, p.fetched, old(p.queued))
    {
      hide Inv, Slot;
      Sizes(S(), p);
      PublishKeeps(S(), p, h);
      WaitingApart(S(), p);
      avail := avail[Slot(availIdx) := h];
      availIdx := (availIdx + 1) % WRAP;
      p := PublishedPlan(p, h);
    }

    /** virtio_disk_rw until it sleeps, for want of descriptors or for the device. */
    method Request(b: Buf, out: bool, blockno: Uint) returns (ok: bool, h: Id)
      requires Valid() && b !in busy && forall g | g in p.chain :: p.chain[g].b != b
      modifies this`free, this`ops, this`desc, this`info, this`busy, this`avail, this`availIdx, this`p
      ensures Valid() && (ok <==> old(|p.chain|) <= 1)
      ensures !ok ==> p == old(p) && busy == old(busy)
      ensures ok ==> busy == old(busy) + {b} && h in p.chain && p.chain[h].phase == Queued(old(p.queued))
      ensures ok ==> p.chain[h].b == b && p.chain[h].out == out && p.chain[h].sector == SectorOf(blockno)
      ensures ok && blockno < UINT_LIMIT / 2 ==> p.chain[h].sector * 512 == blockno * BSIZE
      ensures ok ==> p.chain - {h} == old(p.chain)
    {
      hide Inv;
      var idx;
      ok, idx := Start(b, out, blockno);
      h := 0;
      if ok {
        h := idx[0];
        Fill(idx, b, out, blockno);
        Publish(h);
      }
    }

    /** free_chain follows the links in memory. */
    method FreeChain(h: Id, ghost mid: Id, ghost last: Id)
      requires Shape(S()) && h != mid && h != last && mid != last
      requires !free[h] && !free[mid] && !free[last]
      requires desc[h].next == mid && desc[h].flags % 2 == 1
      requires desc[mid].next == last && desc[mid].flags % 2 == 1 && desc[last].flags % 2 == 0
      modifies this`free, this`desc
      ensures free == SetThree(old(free), h, true, mid, true, last, true)
      ensures desc == SetThree(old(desc), h, CLEAR, mid, CLEAR, last, CLEAR)
    {
      var i, more := h, true;
      ghost var done := 0;
      while more
        invariant 0 <= done <= 3 && |free| == |desc| == NUM && (more <==> done < 3)
        invariant done < 3 ==> i == [h, mid, last][done]
        invariant free == [old(free), old(free)[h := true], old(free)[h := true][mid := true],
                           old(free)[h := true][mid := true][last := true]][done]
        invariant desc == [old(desc), old(desc)[h := CLEAR], old(desc)[h := CLEAR][mid := CLEAR],
                           old(desc)[h := CLEAR][mid := CLEAR][last := CLEAR]][done]
        decreases 3 - done
      {
        var d := desc[i];
        FreeDesc(i);
        done := done + 1;
        if d.flags % 2 == 1 {
          i := d.next;
        } else {
          more := false;
        }
      }
    }

    /** virtio_disk_rw after it is woken: sleeps again, or takes the request apart and returns. */
    method Finish(b: Buf, h: Id) returns (done: bool)
      requires Valid() && h in p.chain && p.chain[h].b == b
      requires !p.chain[h].phase.Forming? && !p.chain[h].phase.Ready?
      modifies this`free, this`desc, this`info, this`p
      ensures Valid() && (done <==> old(p.chain)[h].phase.Done?)
      ensures !done ==> p == old(p) && free == old(free)
      ensures done ==> p.chain == old(p.chain) - {h} && At(mem, b) == old(p.chain)[h].value
    {
      hide Inv, SetThree;
      ghost var s := S();
      Sizes(s, p);
      Retirable(s, p, h);
      if b in busy {
        return false;
      }
      RetireKeeps(s, p, h);
      info := info[h := info[h].(b := None)];
      FreeChain(h, p.chain[h].mid, p.chain[h].last);
      assert S() == Retired(s, h, p.chain[h]);
      p := RetiredPlan(p, h);
      return true;
    }

    /** One turn of the loop of virtio_disk_intr. */
    method See() returns (more: bool, panicked: bool)
      requires Valid()
      modifies this`busy, this`seenIdx, this`p
      ensures Valid() && (more <==> old(p.seen < p.completed))
      ensures !more || panicked ==> p == old(p) && busy == old(busy)
      ensures more ==> var h := used[Slot(old(p.seen))];
                       && IsUsed(old(p), h, old(p.seen))
                       && (panicked <==> old(p.chain)[h].phase.status != 0)
                       && (!panicked ==> p == SeenPlan(old(p), h) && busy == old(busy) - {p.chain[h].b})
    {
      hide Inv, Slot;
      Sizes(S(), p);
      FewWaiting(S(), p);
      WrapKeepsOrder(p.seen, p.completed);
      more, panicked := seenIdx != usedIdx, false;
      if more {
        SeeKeeps(S(), p);
        WrapKeepsSlot(p.seen);
        var id := used[Slot(seenIdx)];
        if info[id].status != 0 {
          panicked := true;
        } else {
          var b := info[id].b.value;
          busy := busy - {b};
          seenIdx := (seenIdx + 1) % WRAP;
          p := SeenPlan(p, id);
        }
      }
    }

    /** The device takes the next entry, if there is one. */
    method Fetch() returns (some: bool, h: Id)
      requires Valid()
      modifies this`fetchIdx, this`p
      ensures Valid() && (some <==> old(p.fetched < p.queued))
      ensures !some ==> p == old(p)
      ensures some ==> h in old(p.chain) && old(p.chain)[h].phase == Queued(old(p.fetched)) && p == FetchedPlan(old(p), h)
    {
      hide Inv, Slot;
      Sizes(S(), p);
      FewWaiting(S(), p);
      WrapKeepsOrder(p.fetched, p.queued);
      some, h := fetchIdx != availIdx, 0;
      if some {
        FetchKeeps(S(), p);
        WrapKeepsSlot(p.fetched);
        h := avail[Slot(fetchIdx)];
        fetchIdx := (fetchIdx + 1) % WRAP;
        p := FetchedPlan(p, h);
      }
    }

    method Move(req: Req, b: Buf, status: Byte)
      modifies this`mem, this`image
      ensures mem == if status == 0 && !req.out then old(mem)[b := At(old(image), req.sector)] else old(mem)
      ensures image == if status == 0 && req.out then old(image)[req.sector := At(old(mem), b)] else old(image)
    {
      if status == 0 && req.out {
        image := image[req.sector := At(mem, b)];
      } else if status == 0 {
        mem := mem[b := At(image, req.sector)];
      }
    }

    method Report(h: Id, at: Id, status: Byte)
      requires |info| == |used| == NUM
      modifies this`info, this`used, this`usedIdx
      ensures info == old(info)[at := old(info)[at].(status := status)]
      ensures used == old(used)[Slot(old(usedIdx)) := h] && usedIdx == (old(usedIdx) + 1) % WRAP
    {
      info := info[at := info[at].(status := status)];
      used := used[Slot(usedIdx) := h];
      usedIdx := (usedIdx + 1) % WRAP;
    }

    /** The device finishes any request it has fetched, in any order, well or not. It finds sector,
        direction and buffer by following the descriptors. */
    method Complete(h: Id, status: Byte)
      requires Valid() && h in p.chain && p.chain[h].phase.Working?
      modifies this`used, this`usedIdx, this`info, this`mem, this`image, this`p
      ensures Valid() && p == CompletedPlan(old(p), h, status, At(mem, old(p.chain)[h].b))
      ensures Moved(old(S()), S(), status, old(p.chain)[h])
      ensures SlotsKept(old(used), used, p.seen, old(p.completed))
    {
      hide Inv, Slot, Moved, SlotsKept, At;
      ghost var s := S();
      Sizes(s, p);
      CompleteKeeps(s, p, h, status);
      CompleteMoves(s, p, p.chain[h], h, status);
      Serve(h, status, p.chain[h]);
      p := CompletedPlan(p, h, status, At(mem, p.chain[h].b));
    }

    /** The device's part: the descriptors lead to sector, direction, buffer and status byte. */
    method Serve(h: Id, status: Byte, ghost c: Chain)
      requires Shape(S()) && Reads(S(), h, c.b, c.out, c.sector)
      modifies this`used, this`usedIdx, this`info, this`mem, this`image
      ensures S() == Completed(old(S()), h, c.b, c.out, c.sector, status)
    {
      hide Slot, At;
      var d0 := desc[h];
      var d1 := desc[d0.next];
      var req, b, at := ops[d0.addr.i], d1.addr.b, desc[d1.next].addr.i;
      Move(req, b, status);
      Report(h, at, status);
    }
  }

  /** After a successful request buffer and sector agree, and only its target has changed. */
  ghost predicate Moved(s: Hw, t: Hw, status: Byte, c: Chain) {
    if status != 0 then t.mem == s.mem && t.image == s.image
    else
      && At(t.mem, c.b) == At(t.image, c.sector)
      && (if c.out then t.mem == s.mem else t.image == s.image)
      && (forall b | b != c.b :: At(t.mem, b) == At(s.mem, b))
      && (forall x | x != c.sector :: At(t.image, x) == At(s.image, x))
  }

  lemma CompleteMoves(s: Hw, p: Plan, c: Chain, h: Id, status: Byte)
    requires Inv(s, p)
    ensures var t := Completed(s, h, c.b, c.out, c.sector, status);
            Moved(s, t, status, c) && SlotsKept(s.used, t.used, p.seen, p.completed)
  {
    hide CountTrue, Partition, Chains, AvailOk, UsedOk, Slot;
    WaitingApart(s, p);
  }

  lemma Sizes(s: Hw, p: Plan)
    requires Inv(s, p)
    ensures Shape(s) && |p.owner| == NUM && IndexesWrap(s, p)
    ensures CountTrue(s.free) >= 3 <==> |p.chain| <= 1
  {
  }

  /** What the driver relies on when it takes a request apart. */
  lemma Retirable(s: Hw, p: Plan, h: Id)
    requires Inv(s, p) && h in p.chain && !p.chain[h].phase.Forming?
    ensures var c := p.chain[h];
            && h != c.mid && h != c.last && c.mid != c.last
            && !s.free[h] && !s.free[c.mid] && !s.free[c.last] && Formatted(s, h, c)
            && (c.b in s.busy <==> !c.phase.Done?)
            && (c.phase.Done? ==> At(s.mem, c.b) == c.value)
  {
    hide CountTrue, AvailOk, UsedOk;
    assert InStep(s, h, p.chain[h]) && Holds(p, h);
  }

  /** Entries lo up to hi of a ring are as they were. */
  ghost predicate SlotsKept(was: seq<Id>, now: seq<Id>, lo: nat, hi: nat) {
    |was| == |now| == NUM && forall k | lo <= k < hi :: now[Slot(k)] == was[Slot(k)]
  }

  /** The slot that is written next holds no entry that is still to be read. */
  lemma WaitingApart(s: Hw, p: Plan)
    requires Inv(s, p)
    ensures forall k | p.fetched <= k < p.queued :: Slot(k) != Slot(s.availIdx)
    ensures forall k | p.seen <= k < p.completed :: Slot(k) != Slot(s.usedIdx)
  {
    hide CountTrue, Partition, Chains, AvailOk, UsedOk, Slot;
    FewWaiting(s, p);
    WrapKeepsSlot(p.queued);
    WrapKeepsSlot(p.completed);
    forall k | p.fetched <= k < p.queued ensures Slot(k) != Slot(p.queued) {
      SlotsDiffer(k, p.queued);
    }
    forall k | p.seen <= k < p.completed ensures Slot(k) != Slot(p.completed) {
      SlotsDiffer(k, p.completed);
    }
  }

  function SectorOf(blockno: Uint): (r: Uint) {
    blockno * (BSIZE / 512) % UINT_LIMIT
  }

  /** Two blocks have the same sectors exactly if they differ by a multiple of 2 to the 31: the product
      is computed in 32 bits. Otherwise their sectors do not overlap. */
  lemma SectorsApart(a: Uint, b: Uint)
    ensures SectorOf(a) == SectorOf(b) <==> a % (UINT_LIMIT / 2) == b % (UINT_LIMIT / 2)
    ensures SectorOf(a) < SectorOf(b) ==> SectorOf(a) + BSIZE / 512 <= SectorOf(b)
  {
    SectorHalf(a);
    SectorHalf(b);
  }

  lemma SectorHalf(b: Uint)
    ensures SectorOf(b) == BSIZE / 512 * (b % (UINT_LIMIT / 2))
  {
    assert BSIZE / 512 == 2 && UINT_LIMIT / 2 == 0x8000_0000;
    if b < 0x8000_0000 {
      assert SectorOf(b) == 2 * b;
    } else {
      assert 2 * b == UINT_LIMIT + 2 * (b - 0x8000_0000);
      assert SectorOf(b) == 2 * b - UINT_LIMIT;
    }
  }

  /** A new request under idx[0], everything else as it was. */
  ghost predicate Began(p: Plan, q: Plan, idx: seq<Id>, b: Buf, out: bool, sector: nat)
    requires |idx| == 3
  {
    && idx[0] !in p.chain
    && q.chain == p.chain[idx[0] := Chain(idx[1], idx[2], b, out, sector, Forming, ZERO_BLOCK)]
    && q.queued == p.queued && q.fetched == p.fetched && q.completed == p.completed && q.seen == p.seen
  }

  lemma StartBegan(s: Hw, p: Plan, idx: seq<Id>, b: Buf, out: bool, sector: nat)
    requires |idx| == 3 && Inv(s, p) && s.free[idx[0]]
    ensures Began(p, StartedPlan(p, idx[0], idx[1], idx[2], b, out, sector), idx, b, out, sector)
  {
    hide CountTrue, Chains, AvailOk, UsedOk, SetThree;
    assert idx[0] in p.chain ==> Holds(p, idx[0]);
  }

  ghost predicate Fresh3(free: seq<bool>, x: Id, y: Id, z: Id)
    requires |free| == NUM
  {
    free[x] && free[y] && free[z] && x != y && x != z && y != z
  }

  /** `now` is `was` with the distinct free descriptors idx taken. */
  ghost predicate Took(was: seq<bool>, now: seq<bool>, idx: seq<Id>)
    requires |was| == |now| == NUM
  {
    && (forall k | 0 <= k < |idx| :: was[idx[k]])
    && (forall j, k | 0 <= j < k < |idx| :: idx[j] != idx[k])
    && (forall i: Id :: now[i] <==> was[i] && i !in idx)
  }

  lemma TookHead(was: seq<bool>, now: seq<bool>, idx: seq<Id>)
    requires |was| == |now| == NUM && Took(was, now, idx) && idx != []
    ensures !now[idx[0]] && Took(was, now[idx[0] := true], idx[1..])
  {
    forall i: Id ensures i in idx <==> i == idx[0] || i in idx[1..] {
      assert idx == [idx[0]] + idx[1..];
    }
    assert idx[0] in idx;
  }

  lemma ThreeTaken(was: seq<bool>, now: seq<bool>, idx: seq<Id>)
    requires |was| == |now| == NUM && |idx| == 3 && Took(was, now, idx)
    ensures Fresh3(was, idx[0], idx[1], idx[2])
    ensures now == SetThree(was, idx[0], false, idx[1], false, idx[2], false)
  {
    hide SetThree;
    var all := SetThree(was, idx[0], false, idx[1], false, idx[2], false);
    assert idx == [idx[0], idx[1], idx[2]];
    forall i: Id ensures now[i] == all[i] {
    }
  }

  lemma {:induction false} CountAll(s: seq<bool>)
    requires forall i | 0 <= i < |s| :: s[i]
    ensures CountTrue(s) == |s|
  {
    if s != [] {
      CountAll(s[..|s| - 1]);
    }
  }
}
