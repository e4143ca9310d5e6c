/** Memory-mapped areas: the pool of kernel/file.c (mmap, munmap), its copy in fork and its release
    in exit of kernel/proc.c. Each process has a chain of slots of the shared pool. */
module Vma {
  import opened Common

  const MAX_VMAS := 10
  const VMAS_STORED := 30
  const START_ADDRESS := 0x20_0000_0000
  const TOP_ADDRESS := 0x3F_FFFF_DFFF
  const TRAPFRAME := 0x3F_FFFF_E000
  const NULL := -1

  type Uint64 = x: int | 0 <= x < WORD

  datatype Area = Area(size: Uint64, file: nat, init: Uint64, lo: Uint64, hi: Uint64, prot: int, flag: int)
  datatype Slot = Slot(used: bool, area: Area, next: int)

  const EMPTY := Slot(false, Area(0, 0, 0, 0, 0, 0, 0), NULL)

  function Add(x: Uint64, y: Uint64): (r: Uint64) {
    (x + y) % WORD
  }

  function PageUp(x: Uint64): (r: Uint64) {
    Add(x, PGSIZE - 1) / PGSIZE * PGSIZE
  }

  function PageDown(x: Uint64): (r: Uint64) {
    x / PGSIZE * PGSIZE
  }

  // ---- areas of one process

  predicate AreaOk(a: Area) {
    a.lo % PGSIZE == 0 && a.hi % PGSIZE == 0 && START_ADDRESS <= a.lo < a.hi <= TOP_ADDRESS
  }

  ghost predicate InOrder(list: seq<Area>) {
    forall k | 0 < k < |list| :: list[k - 1].hi <= list[k].lo
  }

  ghost predicate AreasOk(list: seq<Area>) {
    (forall k | 0 <= k < |list| :: AreaOk(list[k])) && InOrder(list)
  }

  /** Areas in order do not overlap, and lie below the trap frame. */
  lemma {:induction false} Disjoint(list: seq<Area>, j: nat, k: nat)
    requires AreasOk(list) && j < k < |list|
    ensures list[j].hi <= list[k].lo && list[k].hi <= TRAPFRAME
    decreases k
  {
    if j < k - 1 {
      Disjoint(list, j, k - 1);
    }
    assert AreaOk(list[k - 1]) && AreaOk(list[k]);
  }

  function Inserted<T>(s: seq<T>, k: nat, x: T): (r: seq<T>)
    requires k <= |s|
    ensures |r| == |s| + 1
    ensures forall j | 0 <= j < k :: r[j] == s[j]
    ensures r[k] == x
    ensures forall j | k < j < |r| :: r[j] == s[j - 1]
  {
    s[..k] + [x] + s[k..]
  }

  function Removed<T>(s: seq<T>, k: nat): (r: seq<T>)
    requires k < |s|
    ensures |r| == |s| - 1
    ensures forall j | 0 <= j < k :: r[j] == s[j]
    ensures forall j | k <= j < |r| :: r[j] == s[j + 1]
  {
    s[..k] + s[k + 1..]
  }

  /** Where mmap puts an area if it comes after k others. */
  function Base(list: seq<Area>, k: nat): (r: Uint64)
    requires k <= |list|
  {
    if k == 0 then START_ADDRESS else list[k - 1].hi
  }

  /** The tests of mmap before the k-th area, and after the last: never before the first. */
  predicate Fits(list: seq<Area>, k: nat, psize: Uint64)
    requires k <= |list|
  {
    if k < |list| then k > 0 && Add(list[k - 1].hi, psize) <= list[k].lo
    else Add(Base(list, k), psize) <= TOP_ADDRESS
  }

  /** The first place from j on where an area fits, or the end. */
  function FirstFit(list: seq<Area>, psize: Uint64, j: nat): (k: nat)
    requires j <= |list|
    ensures j <= k <= |list| && (k < |list| ==> Fits(list, k, psize))
    ensures forall i | j <= i < k :: !Fits(list, i, psize)
    decreases |list| - j
  {
    if j == |list| || Fits(list, j, psize) then j else FirstFit(list, psize, j + 1)
  }

  /** For a size that does not wrap, first fit finds a place exactly if there is one: between two
      areas, or after the last. */
  lemma FindsRoomIff(list: seq<Area>, psize: Uint64)
    requires AreasOk(list) && psize <= WORD - TRAPFRAME
    ensures Fits(list, FirstFit(list, psize, 0), psize) <==>
              || (exists k | 0 < k < |list| :: list[k - 1].hi + psize <= list[k].lo)
              || (if list == [] then START_ADDRESS else list[|list| - 1].hi) + psize <= TOP_ADDRESS
  {
    var j := FirstFit(list, psize, 0);
    forall k | 0 <= k < |list| ensures AreaOk(list[k]) && (Fits(list, k, psize) <==> k > 0 && list[k - 1].hi + psize <= list[k].lo) {
      assert k > 0 ==> AreaOk(list[k - 1]);
    }
    assert j == |list| || Fits(list, j, psize);
  }

  predicate NoWrap(base: Uint64, psize: Uint64) {
    0 < psize && base + psize < WORD
  }

  /** mmap keeps areas non-empty, in order and below TOP_ADDRESS exactly when the rounded length is
      not 0 and its end does not wrap. */
  lemma InsertOkIff(list: seq<Area>, k: nat, psize: Uint64, a: Area)
    requires AreasOk(list) && k <= |list| && Fits(list, k, psize) && psize % PGSIZE == 0
    requires a.lo == Base(list, k) && a.hi == Add(a.lo, psize)
    ensures AreasOk(Inserted(list, k, a)) <==> NoWrap(Base(list, k), psize)
  {
    var r := Inserted(list, k, a);
    assert k > 0 ==> AreaOk(list[k - 1]);
    assert k < |list| ==> AreaOk(list[k]);
    if NoWrap(a.lo, psize) {
      assert AreaOk(a);
      forall j | 0 <= j < |r| ensures AreaOk(r[j]) && (j > 0 ==> r[j - 1].hi <= r[j].lo) {
        if j > k {
          assert AreaOk(list[j - 1]) && (j - 1 > 0 ==> list[j - 2].hi <= list[j - 1].lo);
        } else if j < k {
          assert AreaOk(list[j]) && (j > 0 ==> list[j - 1].hi <= list[j].lo);
        }
      }
    } else {
      assert r[k] == a && !AreaOk(a);
    }
  }

  /** The lengths mmap is meant for never wrap; a length of 0 gives an empty area. */
  lemma MeantLengths(list: seq<Area>, k: nat, length: Uint64)
    requires AreasOk(list) && k <= |list|
    ensures 0 < length <= TOP_ADDRESS - START_ADDRESS ==> NoWrap(Base(list, k), PageUp(length))
    ensures length == 0 ==> !NoWrap(Base(list, k), PageUp(length))
  {
  }

  /** The test of munmap, on the addresses as they wrap. */
  predicate Covers(a: Area, addr: Uint64, length: Uint64) {
    a.lo <= Add(addr, length) <= a.hi && a.lo <= addr < a.hi
  }

  /** What munmap leaves of the area it finds: nothing, a front cut off, or what is below addr. */
  function Left(a: Area, addr: Uint64, length: Uint64): (r: Area) {
    if a.lo == addr then a.(lo := Add(a.lo, PageUp(length))) else a.(hi := PageDown(addr))
  }

  predicate Whole(a: Area, length: Uint64) {
    Add(a.lo, PageUp(length)) == a.hi
  }

  lemma PageUpBounds(x: Uint64, top: Uint64)
    requires x <= top < WORD - PGSIZE && top % PGSIZE == 0
    ensures x <= PageUp(x) <= top && PageUp(x) < x + PGSIZE && PageUp(x) % PGSIZE == 0
  {
  }

  /** Cutting at or past the second page leaves a proper area, as does cutting a front off; an address
      inside the first page, but not at its start, leaves an empty one. */
  lemma LeftOkIff(a: Area, addr: Uint64, length: Uint64)
    requires AreaOk(a) && Covers(a, addr, length) && !Whole(a, length)
    ensures AreaOk(Left(a, addr, length)) <==> !(a.lo < addr < a.lo + PGSIZE)
    ensures Left(a, addr, length).lo >= a.lo && Left(a, addr, length).hi <= a.hi
  {
    hide PageUp;
    if a.lo == addr {
      assert length <= a.hi - a.lo;
      PageUpBounds(length, a.hi - a.lo);
    }
  }

  /** Such an empty area covers no range, so the loop of exit, which gives it its own bounds, would
      never remove it. */
  lemma EmptyAreaStays(a: Area, addr: Uint64, length: Uint64)
    requires AreaOk(a) && a.lo < addr < a.lo + PGSIZE && Covers(a, addr, length) && !Whole(a, length)
    ensures var e := Left(a, addr, length); e.lo == e.hi && forall x, n :: !Covers(e, x, n)
  {
  }

  /** A page-aligned range at an end of an area is taken off exactly. */
  lemma LeftIsRest(a: Area, addr: Uint64, length: Uint64)
    requires AreaOk(a) && addr % PGSIZE == 0 && 0 < length && a.lo <= addr && addr + length <= a.hi
    ensures Covers(a, addr, length)
    ensures addr == a.lo && addr + PageUp(length) == a.hi <==> Whole(a, length)
    ensures !Whole(a, length) && addr == a.lo ==>
              Left(a, addr, length) == a.(lo := addr + PageUp(length)) && AreaOk(Left(a, addr, length))
    ensures !Whole(a, length) && addr > a.lo ==>
              Left(a, addr, length) == a.(hi := addr) && AreaOk(Left(a, addr, length))
  {
    hide PageUp;
    PageUpBounds(length, a.hi - addr);
  }

  // ---- the pool

  datatype Pool = Pool(slots: seq<Slot>, heads: seq<int>, refs: seq<int>)

  /** Each process's slots in order, the process each slot belongs to, and the number of file
      descriptors that hold each file. */
  datatype Plan = Plan(chains: seq<seq<int>>, owner: seq<int>, fds: seq<nat>)

  /** The element after position k, or NULL. */
  function At(chain: seq<int>, k: nat): (r: int) {
    if k < |chain| then chain[k] else NULL
  }

  ghost predicate Linked(slots: seq<Slot>, head: int, chain: seq<int>) {
    && head == At(chain, 0)
    && forall k | 0 <= k < |chain| :: IsLink(slots, chain, k)
  }

  ghost predicate IsLink(slots: seq<Slot>, chain: seq<int>, k: nat)
    requires k < |chain|
  {
    0 <= chain[k] < |slots| && slots[chain[k]].used && slots[chain[k]].next == At(chain, k + 1)
  }

  ghost predicate Owned(g: Plan, p: nat)
    requires p < |g.chains|
  {
    && (forall k | 0 <= k < |g.chains[p]| :: 0 <= g.chains[p][k] < |g.owner| && g.owner[g.chains[p][k]] == p)
    && (forall j, k | 0 <= j < k < |g.chains[p]| :: g.chains[p][j] != g.chains[p][k])
  }

  /** A slot is in use exactly when it is in a chain, and then in one. */
  ghost predicate SlotOk(s: Pool, g: Plan, i: nat)
    requires i < |s.slots| == |g.owner|
  {
    && (s.slots[i].used <==> g.owner[i] >= 0)
    && (s.slots[i].used ==> g.owner[i] < |g.chains| && i in g.chains[g.owner[i]] && s.slots[i].area.file < |s.refs|)
  }

  function Users(slots: seq<Slot>, f: nat): (n: nat) {
    if slots == [] then 0
    else Users(slots[..|slots| - 1], f) + if UsedBy(slots[|slots| - 1], f) then 1 else 0
  }

  lemma {:induction false} NobodyUses(slots: seq<Slot>, f: nat)
    requires Users(slots, f) == 0
    ensures forall i | 0 <= i < |slots| :: !UsedBy(slots[i], f)
  {
    if slots != [] {
      NobodyUses(slots[..|slots| - 1], f);
    }
  }

  predicate UsedBy(t: Slot, f: nat) {
    t.used && t.area.file == f
  }

  ghost predicate Struct(s: Pool, g: Plan) {
    && |s.slots| == |g.owner| == VMAS_STORED && |s.heads| == |g.chains| && |s.refs| == |g.fds|
    && (forall p: nat | p < |g.chains| :: Linked(s.slots, s.heads[p], g.chains[p]) && Owned(g, p))
    && (forall i: nat | i < |s.slots| :: SlotOk(s, g, i))
    && (forall f: nat | f < |s.refs| :: s.refs[f] == g.fds[f] + Users(s.slots, f))
  }

  ghost function Areas(slots: seq<Slot>, chain: seq<int>): (r: seq<Area>)
    requires forall k | 0 <= k < |chain| :: 0 <= chain[k] < |slots|
    ensures |r| == |chain| && forall k | 0 <= k < |chain| :: r[k] == slots[chain[k]].area
  {
    seq(|chain|, k requires 0 <= k < |chain| => slots[chain[k]].area)
  }

  lemma {:induction false} UsersSet(slots: seq<Slot>, i: nat, t: Slot, f: nat)
    requires i < |slots|
    ensures Users(slots[i := t], f) ==
            Users(slots, f) - (if UsedBy(slots[i], f) then 1 else 0) + (if UsedBy(t, f) then 1 else 0)
  {
    var last := |slots| - 1;
    if i < last {
      UsersSet(slots[..last], i, t, f);
      assert slots[i := t][..last] == slots[..last][i := t];
    } else {
      assert slots[i := t][..last] == slots[..last];
    }
  }

  // ---- a slot joins a chain

  /** The slots once c, with this area, is linked in as the k-th of the chain. */
  function LinkIn(slots: seq<Slot>, chain: seq<int>, k: nat, c: nat, a: Area): (r: seq<Slot>)
    requires k <= |chain| && c < |slots| && (k > 0 ==> 0 <= chain[k - 1] < |slots|)
    ensures |r| == |slots|
  {
    var linked := slots[c := Slot(true, a, At(chain, k))];
    if k == 0 then linked else linked[chain[k - 1] := linked[chain[k - 1]].(next := c)]
  }

  ghost function InsertPlan(g: Plan, p: nat, k: nat, c: nat): (r: Plan)
    requires p < |g.chains| && k <= |g.chains[p]| && c < |g.owner|
  {
    g.(chains := g.chains[p := Inserted(g.chains[p], k, c)], owner := g.owner[c := p])
  }

  function InsertPool(s: Pool, p: nat, chain: seq<int>, k: nat, c: nat, a: Area): (r: Pool)
    requires p < |s.heads| && a.file < |s.refs|
    requires k <= |chain| && c < |s.slots| && (k > 0 ==> 0 <= chain[k - 1] < |s.slots|)
  {
    Pool(LinkIn(s.slots, chain, k, c, a), if k == 0 then s.heads[p := c] else s.heads,
         s.refs[a.file := s.refs[a.file] + 1])
  }

  ghost predicate CanInsert(s: Pool, g: Plan, p: nat, k: nat, c: nat, a: Area) {
    && Struct(s, g) && p < |g.chains| && k <= |g.chains[p]| && c < VMAS_STORED
    && !s.slots[c].used && a.file < |s.refs| && (k == 0 ==> g.chains[p] == [])
  }

  lemma InsertKeeps(s: Pool, g: Plan, p: nat, k: nat, c: nat, a: Area)
    requires CanInsert(s, g, p, k, c, a)
    ensures k > 0 ==> 0 <= g.chains[p][k - 1] < |s.slots|
    ensures Struct(InsertPool(s, p, g.chains[p], k, c, a), InsertPlan(g, p, k, c))
  {
    hide Users;
    assert Linked(s.slots, s.heads[p], g.chains[p]) && Owned(g, p);
    assert k > 0 ==> IsLink(s.slots, g.chains[p], k - 1);
    var t, h := InsertPool(s, p, g.chains[p], k, c, a), InsertPlan(g, p, k, c);
    forall q: nat | q < |h.chains| ensures Linked(t.slots, t.heads[q], h.chains[q]) && Owned(h, q) {
      assert Linked(s.slots, s.heads[q], g.chains[q]) && Owned(g, q);
      if q == p {
        InsertLinked(s, g, p, k, c, a);
      } else {
        OthersLinked(s, g, p, k, c, a, q);
      }
    }
    forall i: nat | i < |t.slots| ensures SlotOk(t, h, i) {
      assert SlotOk(s, g, i);
      InsertSlot(s, g, p, k, c, a, i);
    }
    forall f: nat | f < |t.refs| ensures t.refs[f] == h.fds[f] + Users(t.slots, f) {
      InsertUsers(s.slots, g.chains[p], k, c, a, f);
    }
  }

  lemma FreeSlotOutside(s: Pool, g: Plan, c: nat, q: nat)
    requires Struct(s, g) && c < VMAS_STORED && !s.slots[c].used && q < |g.chains|
    ensures c !in g.chains[q]
  {
    assert Owned(g, q) && SlotOk(s, g, c);
  }

  lemma InsertLinked(s: Pool, g: Plan, p: nat, k: nat, c: nat, a: Area)
    requires CanInsert(s, g, p, k, c, a) && (k > 0 ==> 0 <= g.chains[p][k - 1] < |s.slots|)
    ensures var t, h := InsertPool(s, p, g.chains[p], k, c, a), InsertPlan(g, p, k, c);
            Linked(t.slots, t.heads[p], h.chains[p]) && Owned(h, p)
  {
    hide Users, SlotOk;
    var chain := g.chains[p];
    assert Linked(s.slots, s.heads[p], chain) && Owned(g, p);
    FreeSlotOutside(s, g, c, p);
    var t, h := InsertPool(s, p, chain, k, c, a), InsertPlan(g, p, k, c);
    var now := h.chains[p];
    forall j | 0 <= j < |now| ensures IsLink(t.slots, now, j) {
      if j < k {
        assert IsLink(s.slots, chain, j);
      } else if j > k {
        assert IsLink(s.slots, chain, j - 1);
      }
    }
  }

  lemma OthersLinked(s: Pool, g: Plan, p: nat, k: nat, c: nat, a: Area, q: nat)
    requires CanInsert(s, g, p, k, c, a) && (k > 0 ==> 0 <= g.chains[p][k - 1] < |s.slots|)
    requires q < |g.chains| && q != p
    ensures var t, h := InsertPool(s, p, g.chains[p], k, c, a), InsertPlan(g, p, k, c);
            Linked(t.slots, t.heads[q], h.chains[q]) && Owned(h, q)
  {
    hide Users, SlotOk;
    var chain := g.chains[q];
    assert Linked(s.slots, s.heads[q], chain) && Owned(g, q) && Owned(g, p);
    FreeSlotOutside(s, g, c, q);
    var t := InsertPool(s, p, g.chains[p], k, c, a);
    forall j | 0 <= j < |chain| ensures IsLink(t.slots, chain, j) {
      assert IsLink(s.slots, chain, j);
    }
  }

  lemma InsertSlot(s: Pool, g: Plan, p: nat, k: nat, c: nat, a: Area, i: nat)
    requires CanInsert(s, g, p, k, c, a) && (k > 0 ==> 0 <= g.chains[p][k - 1] < |s.slots|) && i < VMAS_STORED
    ensures SlotOk(InsertPool(s, p, g.chains[p], k, c, a), InsertPlan(g, p, k, c), i)
  {
    hide Users, Linked;
    assert SlotOk(s, g, i) && Owned(g, p);
    var h := InsertPlan(g, p, k, c);
    assert h.chains[p][k] == c;
    if i != c && s.slots[i].used && g.owner[i] == p {
      var j :| 0 <= j < |g.chains[p]| && g.chains[p][j] == i;
      assert h.chains[p][if j < k then j else j + 1] == i;
    }
  }

  lemma InsertUsers(slots: seq<Slot>, chain: seq<int>, k: nat, c: nat, a: Area, f: nat)
    requires k <= |chain| && c < |slots| && (k > 0 ==> 0 <= chain[k - 1] < |slots|)
    requires !slots[c].used && (k > 0 ==> chain[k - 1] != c)
    ensures Users(LinkIn(slots, chain, k, c, a), f) == Users(slots, f) + if a.file == f then 1 else 0
  {
    hide Users;
    UsersSet(slots, c, Slot(true, a, At(chain, k)), f);
    if k > 0 {
      var linked := slots[c := Slot(true, a, At(chain, k))];
      UsersSet(linked, chain[k - 1], linked[chain[k - 1]].(next := c), f);
    }
  }

  // ---- a slot leaves a chain

  function LinkOut(slots: seq<Slot>, chain: seq<int>, k: nat): (r: seq<Slot>)
    requires k < |chain| && 0 <= chain[k] < |slots| && (k > 0 ==> 0 <= chain[k - 1] < |slots|)
    ensures |r| == |slots|
  {
    var linked := if k == 0 then slots else slots[chain[k - 1] := slots[chain[k - 1]].(next := At(chain, k + 1))];
    linked[chain[k] := EMPTY]
  }

  ghost function RemovePlan(g: Plan, p: nat, k: nat): (r: Plan)
    requires p < |g.chains| && k < |g.chains[p]| && 0 <= g.chains[p][k] < |g.owner|
  {
    g.(chains := g.chains[p := Removed(g.chains[p], k)], owner := g.owner[g.chains[p][k] := -1])
  }

  function RemovePool(s: Pool, p: nat, chain: seq<int>, k: nat): (r: Pool)
    requires p < |s.heads| && k < |chain| && 0 <= chain[k] < |s.slots| && (k > 0 ==> 0 <= chain[k - 1] < |s.slots|)
    requires s.slots[chain[k]].area.file < |s.refs|
  {
    var f := s.slots[chain[k]].area.file;
    Pool(LinkOut(s.slots, chain, k), if k == 0 then s.heads[p := At(chain, 1)] else s.heads,
         s.refs[f := s.refs[f] - 1])
  }

  ghost predicate CanRemove(s: Pool, g: Plan, p: nat, k: nat) {
    && Struct(s, g) && p < |g.chains| && k < |g.chains[p]|
    && 0 <= g.chains[p][k] < VMAS_STORED && s.slots[g.chains[p][k]].area.file < |s.refs|
    && (k > 0 ==> 0 <= g.chains[p][k - 1] < VMAS_STORED)
  }

  lemma RemoveKeeps(s: Pool, g: Plan, p: nat, k: nat)
    requires CanRemove(s, g, p, k)
    ensures Struct(RemovePool(s, p, g.chains[p], k), RemovePlan(g, p, k))
  {
    hide Users;
    var t, h := RemovePool(s, p, g.chains[p], k), RemovePlan(g, p, k);
    forall q: nat | q < |h.chains| ensures Linked(t.slots, t.heads[q], h.chains[q]) && Owned(h, q) {
      RemoveLinked(s, g, p, k, q);
    }
    forall i: nat | i < |t.slots| ensures SlotOk(t, h, i) {
      RemoveSlot(s, g, p, k, i);
    }
    assert Owned(g, p) && IsLink(s.slots, g.chains[p], k);
    forall f: nat | f < |t.refs| ensures t.refs[f] == h.fds[f] + Users(t.slots, f) {
      RemoveUsers(s.slots, g.chains[p], k, f);
    }
  }

  lemma RemoveLinked(s: Pool, g: Plan, p: nat, k: nat, q: nat)
    requires CanRemove(s, g, p, k) && q < |g.chains|
    ensures var t, h := RemovePool(s, p, g.chains[p], k), RemovePlan(g, p, k);
            Linked(t.slots, t.heads[q], h.chains[q]) && Owned(h, q)
  {
    hide Users, SlotOk, IsLink;
    var h := RemovePlan(g, p, k);
    assert Linked(s.slots, s.heads[q], g.chains[q]) && Owned(g, q) && Owned(g, p);
    forall j | 0 <= j < |h.chains[q]| ensures IsLink(RemovePool(s, p, g.chains[p], k).slots, h.chains[q], j) {
      RemoveLink(s, g, p, k, q, j);
    }
  }

  lemma RemoveLink(s: Pool, g: Plan, p: nat, k: nat, q: nat, j: nat)
    requires CanRemove(s, g, p, k) && q < |g.chains| && j < |RemovePlan(g, p, k).chains[q]|
    ensures IsLink(RemovePool(s, p, g.chains[p], k).slots, RemovePlan(g, p, k).chains[q], j)
  {
    hide Users, SlotOk;
    var chain := g.chains[q];
    assert Linked(s.slots, s.heads[q], chain) && Owned(g, q) && Owned(g, p);
    if q == p && j >= k {
      assert IsLink(s.slots, chain, j + 1);
    } else {
      assert IsLink(s.slots, chain, j);
    }
  }

  lemma RemoveSlot(s: Pool, g: Plan, p: nat, k: nat, i: nat)
    requires CanRemove(s, g, p, k) && i < VMAS_STORED
    ensures SlotOk(RemovePool(s, p, g.chains[p], k), RemovePlan(g, p, k), i)
  {
    hide Users, Linked;
    assert SlotOk(s, g, i) && Owned(g, p);
    var h := RemovePlan(g, p, k);
    if i != g.chains[p][k] && s.slots[i].used && g.owner[i] == p {
      var j :| 0 <= j < |g.chains[p]| && g.chains[p][j] == i;
      assert h.chains[p][if j < k then j else j - 1] == i;
    }
  }

  lemma RemoveUsers(slots: seq<Slot>, chain: seq<int>, k: nat, f: nat)
    requires k < |chain| && 0 <= chain[k] < |slots| && slots[chain[k]].used
    requires k > 0 ==> 0 <= chain[k - 1] < |slots| && chain[k - 1] != chain[k]
    ensures Users(LinkOut(slots, chain, k), f) == Users(slots, f) - if slots[chain[k]].area.file == f then 1 else 0
  {
    hide Users;
    if k == 0 {
      UsersSet(slots, chain[k], EMPTY, f);
    } else {
      var before := slots[chain[k - 1]];
      UsersSet(slots, chain[k - 1], before.(next := At(chain, k + 1)), f);
      UsersSet(slots[chain[k - 1] := before.(next := At(chain, k + 1))], chain[k], EMPTY, f);
    }
  }

  // ---- an area shrinks

  function TrimPool(s: Pool, i: nat, a: Area): (r: Pool)
    requires i < |s.slots|
  {
    s.(slots := s.slots[i := s.slots[i].(area := a)])
  }

  lemma TrimKeeps(s: Pool, g: Plan, i: nat, a: Area)
    requires Struct(s, g) && i < VMAS_STORED && a.file == s.slots[i].area.file
    ensures Struct(TrimPool(s, i, a), g)
  {
    hide Users;
    var t := TrimPool(s, i, a);
    forall q: nat | q < |g.chains| ensures Linked(t.slots, t.heads[q], g.chains[q]) && Owned(g, q) {
      assert Linked(s.slots, s.heads[q], g.chains[q]);
      forall j | 0 <= j < |g.chains[q]| ensures IsLink(t.slots, g.chains[q], j) {
        assert IsLink(s.slots, g.chains[q], j);
      }
    }
    forall j: nat | j < |t.slots| ensures SlotOk(t, g, j) {
      assert SlotOk(s, g, j);
    }
    forall f: nat | f < |t.refs| ensures t.refs[f] == g.fds[f] + Users(t.slots, f) {
      UsersSet(s.slots, i, s.slots[i].(area := a), f);
    }
  }

  // ---- what a process sees

  ghost function AreasOf(s: Pool, g: Plan, p: nat): (r: seq<Area>)
    requires Struct(s, g) && p < |g.chains|
    ensures |r| == |g.chains[p]|
  {
    InRange(s, g, p);
    Areas(s.slots, g.chains[p])
  }

  lemma InRange(s: Pool, g: Plan, p: nat)
    requires Struct(s, g) && p < |g.chains|
    ensures forall k | 0 <= k < |g.chains[p]| :: 0 <= g.chains[p][k] < |s.slots|
    ensures forall k | 0 <= k < |g.chains[p]| :: s.slots[g.chains[p][k]].area.file < |s.refs|
  {
    assert Owned(g, p) && Linked(s.slots, s.heads[p], g.chains[p]);
    forall k | 0 <= k < |g.chains[p]| ensures s.slots[g.chains[p][k]].area.file < |s.refs| {
      assert IsLink(s.slots, g.chains[p], k) && SlotOk(s, g, g.chains[p][k]);
    }
  }

  /** Only the areas of p are affected, and so. */
  ghost predicate Changed(s: Pool, g: Plan, t: Pool, h: Plan, p: nat, now: seq<Area>) {
    && Struct(s, g) && Struct(t, h) && |h.chains| == |g.chains| && p < |h.chains| && h.fds == g.fds
    && AreasOf(t, h, p) == now
    && forall q: nat | q < |g.chains| && q != p :: h.chains[q] == g.chains[q] && AreasOf(t, h, q) == AreasOf(s, g, q)
  }

  ghost predicate AllOk(s: Pool, g: Plan)
    requires Struct(s, g)
  {
    forall p: nat | p < |g.chains| :: AreasOk(AreasOf(s, g, p))
  }

  lemma ChangedOk(s: Pool, g: Plan, t: Pool, h: Plan, p: nat, now: seq<Area>)
    requires Changed(s, g, t, h, p, now) && AllOk(s, g)
    ensures Struct(t, h) && |h.chains| == |g.chains| && (AllOk(t, h) <==> AreasOk(now))
    ensures |h.chains[p]| == |now| && forall q: nat | q < |g.chains| && q != p :: |h.chains[q]| == |g.chains[q]|
  {
  }

  lemma InsertShows(s: Pool, g: Plan, p: nat, k: nat, c: nat, a: Area)
    requires CanInsert(s, g, p, k, c, a)
    ensures k > 0 ==> 0 <= g.chains[p][k - 1] < |s.slots|
    ensures Changed(s, g, InsertPool(s, p, g.chains[p], k, c, a), InsertPlan(g, p, k, c),
                    p, Inserted(AreasOf(s, g, p), k, a))
  {
    hide Users, Linked, SlotOk;
    InsertKeeps(s, g, p, k, c, a);
    var t, h := InsertPool(s, p, g.chains[p], k, c, a), InsertPlan(g, p, k, c);
    FreeSlotOutside(s, g, c, p);
    assert Owned(g, p);
    var now, was := AreasOf(t, h, p), AreasOf(s, g, p);
    forall j | 0 <= j < |now| ensures now[j] == Inserted(was, k, a)[j] {
    }
    forall q: nat | q < |g.chains| && q != p ensures AreasOf(t, h, q) == AreasOf(s, g, q) {
      FreeSlotOutside(s, g, c, q);
      assert Owned(g, q);
    }
  }

  lemma RemoveShows(s: Pool, g: Plan, p: nat, k: nat)
    requires CanRemove(s, g, p, k)
    ensures Changed(s, g, RemovePool(s, p, g.chains[p], k), RemovePlan(g, p, k), p, Removed(AreasOf(s, g, p), k))
  {
    hide Users, Linked, SlotOk, RemovePool, RemovePlan;
    RemoveKeeps(s, g, p, k);
    var t, h := RemovePool(s, p, g.chains[p], k), RemovePlan(g, p, k);
    RemoveFrame(s, g, p, k);
    assert Owned(g, p);
    var now, was := AreasOf(t, h, p), AreasOf(s, g, p);
    assert now == Removed(was, k) by {
      forall j | 0 <= j < |now| ensures now[j] == Removed(was, k)[j] {
      }
    }
    forall q: nat | q < |g.chains| && q != p ensures AreasOf(t, h, q) == AreasOf(s, g, q) {
      assert Owned(g, q);
    }
  }

  /** What taking slot k of p's chain out does not touch. */
  lemma RemoveFrame(s: Pool, g: Plan, p: nat, k: nat)
    requires CanRemove(s, g, p, k)
    ensures var t, h := RemovePool(s, p, g.chains[p], k), RemovePlan(g, p, k);
            && |t.slots| == |s.slots| && |h.chains| == |g.chains| && h.fds == g.fds
            && h.chains[p] == Removed(g.chains[p], k)
            && (forall q: nat | q < |g.chains| && q != p :: h.chains[q] == g.chains[q])
            && (forall i: nat | i < |s.slots| && i != g.chains[p][k] :: t.slots[i].area == s.slots[i].area)
  {
  }

  lemma TrimShows(s: Pool, g: Plan, p: nat, k: nat, a: Area)
    requires CanRemove(s, g, p, k) && a.file == s.slots[g.chains[p][k]].area.file
    ensures Changed(s, g, TrimPool(s, g.chains[p][k], a), g, p, AreasOf(s, g, p)[k := a])
  {
    hide Users, Linked, SlotOk;
    TrimKeeps(s, g, g.chains[p][k], a);
    assert Owned(g, p);
    var t := TrimPool(s, g.chains[p][k], a);
    forall q: nat | q < |g.chains| && q != p ensures AreasOf(t, g, q) == AreasOf(s, g, q) {
      assert Owned(g, q);
    }
  }

  lemma RemoveOk(list: seq<Area>, k: nat)
    requires AreasOk(list) && k < |list|
    ensures AreasOk(Removed(list, k))
  {
  }

  lemma TrimOk(list: seq<Area>, k: nat, a: Area)
    requires AreasOk(list) && k < |list| && list[k].lo <= a.lo && a.hi <= list[k].hi
    ensures AreasOk(list[k := a]) <==> AreaOk(a)
  {
    var r := list[k := a];
    assert AreasOk(r) ==> AreaOk(r[k]);
    if AreaOk(a) {
      forall j | 0 <= j < |r| ensures AreaOk(r[j]) && (j > 0 ==> r[j - 1].hi <= r[j].lo) {
        assert AreaOk(list[j]) && (j > 0 ==> list[j - 1].hi <= list[j].lo);
      }
    }
  }

  // ---- free slots and file counts

  /** How many slots from c on are free. */
  function FreeFrom(slots: seq<Slot>, c: nat): (n: nat)
    decreases |slots| - c
  {
    if c >= |slots| then 0 else (if slots[c].used then 0 else 1) + FreeFrom(slots, c + 1)
  }

  /** How the search for a free slot ends: with one, at the last slot, or past the end already. */
  datatype Search = Found(c: nat) | Full | Past

  function First<T>(s: seq<T>, n: nat): (r: seq<T>) {
    if n < |s| then s[..n] else s
  }

  lemma NoneFrom(slots: seq<Slot>, c: nat)
    ensures FreeFrom(slots, c) == 0 ==> FreeFrom(slots, c + 1) == 0
  {
  }

  lemma {:induction false} FreeFrame(slots: seq<Slot>, now: seq<Slot>, c: nat)
    requires |now| == |slots| && forall i | c <= i < |slots| :: now[i].used == slots[i].used
    ensures FreeFrom(now, c) == FreeFrom(slots, c)
    decreases |slots| - c
  {
    if c < |slots| {
      FreeFrame(slots, now, c + 1);
    }
  }

  /** How many of these areas are of file f. */
  function OfFile(list: seq<Area>, f: nat): (n: nat) {
    if list == [] then 0 else (if list[0].file == f then 1 else 0) + OfFile(list[1..], f)
  }

  lemma {:induction false} OfFileAppend(list: seq<Area>, a: Area, f: nat)
    ensures OfFile(list + [a], f) == OfFile(list, f) + if a.file == f then 1 else 0
  {
    if list != [] {
      OfFileAppend(list[1..], a, f);
      assert (list + [a])[1..] == list[1..] + [a];
    }
  }

  const MAP_SHARED := 2

  /** What mmap creates. */
  function NewArea(base: Uint64, length: Uint64, prot: int, flag: int, f: nat): (a: Area) {
    Area(length, f, base, base, Add(base, PageUp(length)), prot, flag)
  }

  ghost predicate Counted(nvma: seq<int>, chains: seq<seq<int>>) {
    |nvma| == |chains| && forall p: nat | p < |nvma| :: nvma[p] == |chains[p]| <= MAX_VMAS
  }

  class Vmas {
    var slots: seq<Slot>
    var heads: seq<int> // p->vmas
    var nvma: seq<int> // p->nvma
    var refs: seq<int> // f->ref
    ghost var g: Plan

    ghost function S(): (s: Pool)
      reads this`slots, this`heads, this`refs
    {
      Pool(slots, heads, refs)
    }

    /** Chains, slots and reference counts agree. */
    ghost predicate Sound()
      reads this
    {
      && |nvma| == |heads| == |g.chains| && |slots| == |g.owner| == VMAS_STORED && Struct(S(), g)
      && Counted(nvma, g.chains)
    }

    ghost function AreasAt(p: nat): (r: seq<Area>)
      requires Sound() && p < |heads|
      reads this
    {
      AreasOf(S(), g, p)
    }

    ghost predicate Valid()
      reads this
    {
      Sound() && AllOk(S(), g)
    }

    constructor (procs: nat, files: nat)
      ensures Valid() && |heads| == procs && |refs| == files
      ensures forall p: nat | p < procs :: g.chains[p] == []
    {
      slots := seq(VMAS_STORED, _ => EMPTY);
      heads, nvma, refs := seq(procs, _ => NULL), seq(procs, _ => 0), seq(files, _ => 0);
      g := Plan(seq(procs, _ => []), seq(VMAS_STORED, _ => -1), seq(files, _ => 0));
      new;
      forall f: nat | f < files ensures Users(slots, f) == 0 {
        NoUsers(slots, f);
      }
    }

    /** filedup, or the descriptor of a new open file. */
    method FileDup(f: nat)
      requires Valid() && f < |refs|
      modifies this`refs, this`g
      ensures Valid() && refs == old(refs[f := refs[f] + 1]) && g == old(g).(fds := g.fds) && g.fds[f] == old(g).fds[f] + 1
    {
      hide Users, AreasOk;
      ghost var s, h := S(), g;
      refs := refs[f := refs[f] + 1];
      g := g.(fds := g.fds[f := g.fds[f] + 1]);
      FdsKeep(s, h, S(), g);
    }

    /** The count of fileclose, on a file that a descriptor holds. The last reference releases what
        the file stands for; then no area maps it. */
    method FileClose(f: nat) returns (last: bool)
      requires Valid() && f < |refs| && g.fds[f] > 0
      modifies this`refs, this`g
      ensures Valid() && refs == old(refs[f := refs[f] - 1]) && g == old(g).(fds := g.fds) && g.fds[f] == old(g).fds[f] - 1
      ensures last <==> old(refs[f]) == 1
      ensures last ==> forall i | 0 <= i < VMAS_STORED && slots[i].used :: slots[i].area.file != f
    {
      hide Users, AreasOk;
      ghost var s, h := S(), g;
      refs := refs[f := refs[f] - 1];
      g := g.(fds := g.fds[f := g.fds[f] - 1]);
      FdsKeep(s, h, S(), g);
      last := refs[f] == 0;
      if last {
        NobodyUses(slots, f);
      }
    }

    /** findVma: takes the first free slot. */
    method FindVma() returns (c: int)
      modifies this`slots
      ensures -1 <= c < |old(slots)|
      ensures c == -1 <==> forall i | 0 <= i < |old(slots)| :: old(slots)[i].used
      ensures c == -1 ==> slots == old(slots)
      ensures c >= 0 ==> !old(slots)[c].used && slots == old(slots)[c := old(slots)[c].(used := true)]
    {
      c := 0;
      while c < |slots|
        invariant 0 <= c <= |slots| && slots == old(slots)
        invariant forall i | 0 <= i < c :: slots[i].used
      {
        if !slots[c].used {
          slots := slots[c := slots[c].(used := true)];
          return;
        }
        c := c + 1;
      }
      c := -1;
    }

    /** Walks the chain of p to the place for a new area. */
    method Seek(p: nat, psize: Uint64) returns (prev: int, act: int, room: bool, ghost k: nat)
      requires Valid() && p < |heads| && nvma[p] < MAX_VMAS
      ensures k == FirstFit(AreasAt(p), psize, 0) && (room <==> Fits(AreasAt(p), k, psize))
      ensures act == At(g.chains[p], k) && prev == (if k == 0 then NULL else g.chains[p][k - 1])
      ensures k == 0 ==> g.chains[p] == []
    {
      hide Struct, AreasOk;
      ghost var list := AreasAt(p);
      prev, act, k := NULL, heads[p], 0;
      Walk(S(), g, p, 0);
      var i := 0;
      while i <= MAX_VMAS
        invariant 0 <= i == k <= |list| && FirstFit(list, psize, k) == FirstFit(list, psize, 0)
        invariant act == At(g.chains[p], k) && prev == (if k == 0 then NULL else g.chains[p][k - 1])
        decreases MAX_VMAS - i
      {
        Walk(S(), g, p, k);
        if act == NULL {
          var end := if prev == NULL then START_ADDRESS else slots[prev].area.hi;
          return prev, act, Add(end, psize) <= TOP_ADDRESS, k;
        } else if prev != NULL && Add(slots[prev].area.hi, psize) <= slots[act].area.lo {
          return prev, act, true, k;
        }
        prev, act, k, i := act, slots[act].next, k + 1, i + 1;
      }
    }

    /** Fills slot c and links it in between prev and act. */
    method Attach(p: nat, prev: int, act: int, c: nat, a: Area, ghost s: Pool, ghost k: nat)
      requires CanInsert(s, g, p, k, c, a) && heads == s.heads && refs == s.refs
      requires |slots| == VMAS_STORED && slots[c := EMPTY] == s.slots[c := EMPTY]
      requires act == At(g.chains[p], k) && prev == (if k == 0 then NULL else g.chains[p][k - 1])
      modifies this`slots, this`heads, this`refs, this`g
      ensures Changed(s, old(g), S(), g, p, Inserted(AreasOf(s, old(g), p), k, a))
      ensures refs == s.refs[a.file := s.refs[a.file] + 1] && g == InsertPlan(old(g), p, k, c)
      ensures slots == LinkIn(s.slots, old(g).chains[p], k, c, a) && |heads| == |s.heads| && |slots| == VMAS_STORED
    {
      hide Struct, Changed;
      InsertShows(s, g, p, k, c, a);
      AttachSizes(s, g, p, k, c, a);
      ghost var t := Slot(true, a, act);
      assert slots[c := t] == slots[c := EMPTY][c := t] == s.slots[c := EMPTY][c := t] == s.slots[c := t];
      slots := slots[c := Slot(true, a, act)];
      if prev == NULL {
        heads := heads[p := c];
      } else {
        slots := slots[prev := slots[prev].(next := c)];
      }
      refs := refs[a.file := refs[a.file] + 1];
      assert S() == InsertPool(s, p, g.chains[p], k, c, a);
      g := InsertPlan(g, p, k, c);
    }

    method Mmap(p: nat, length: Uint64, prot: int, flag: int, f: nat, readable: bool, writable: bool)
      returns (r: int)
      requires Valid() && p < |heads| && f < |refs|
      modifies this
      ensures Sound() && |heads| == old(|heads|)
      ensures r == -1 <==>
                || (flag == MAP_SHARED && !(readable && writable))
                || old(nvma[p]) == MAX_VMAS
                || !Fits(old(AreasAt(p)), FirstFit(old(AreasAt(p)), PageUp(length), 0), PageUp(length))
                || forall i | 0 <= i < VMAS_STORED :: old(slots)[i].used
      ensures r == -1 ==> S() == old(S()) && g == old(g) && nvma == old(nvma)
      ensures r != -1 ==> Mapped(old(S()), old(g), S(), g, p, length, prot, flag, f, r)
      ensures r != -1 ==> exists a <- AreasAt(p) ::
                && a.lo == a.init == r && a.hi == (r + PageUp(length)) % WORD
                && a.size == length && a.file == f && a.prot == prot && a.flag == flag
      ensures r != -1 ==> nvma == old(nvma[p := nvma[p] + 1])
      ensures Valid() <==> r == -1 || NoWrap(r, PageUp(length))
    {
      hide Struct, AreasOk, Fits, FirstFit, Changed, NoWrap;
      if flag == MAP_SHARED && (!readable || !writable) {
        return -1;
      }
      if nvma[p] == MAX_VMAS {
        return -1;
      }
      var psize := PageUp(length);
      var prev, act, room;
      ghost var k;
      prev, act, room, k := Seek(p, psize);
      if !room {
        return -1;
      }
      ghost var s := S();
      var c := FindVma();
      if c == -1 {
        return -1;
      }
      Walk(s, g, p, k);
      r := if prev == NULL then START_ADDRESS else slots[prev].area.hi;
      Place(p, prev, act, c, NewArea(r, length, prot, flag, f), psize, s, k);
      NewIsThere(s, old(g), S(), g, p, k, NewArea(r, length, prot, flag, f));
    }

    /** The part of mmap from the label `allocated` on. */
    method Place(p: nat, prev: int, act: int, c: nat, a: Area, psize: Uint64, ghost s: Pool, ghost k: nat)
      requires CanInsert(s, g, p, k, c, a) && heads == s.heads && refs == s.refs
      requires |slots| == |g.owner| == VMAS_STORED && slots[c := EMPTY] == s.slots[c := EMPTY]
      requires act == At(g.chains[p], k) && prev == (if k == 0 then NULL else g.chains[p][k - 1])
      requires Counted(nvma, g.chains) && |heads| == |g.chains| && nvma[p] < MAX_VMAS && AllOk(s, g)
      requires Fits(AreasOf(s, g, p), k, psize) && psize % PGSIZE == 0
      requires a.lo == Base(AreasOf(s, g, p), k) && a.hi == Add(a.lo, psize)
      modifies this`slots, this`heads, this`refs, this`g, this`nvma
      ensures Sound() && |heads| == old(|heads|) && nvma == old(nvma[p := nvma[p] + 1])
      ensures Changed(s, old(g), S(), g, p, Inserted(AreasOf(s, old(g), p), k, a))
      ensures refs == s.refs[a.file := s.refs[a.file] + 1]
      ensures Valid() <==> NoWrap(a.lo, psize)
    {
      hide Struct, AreasOk, Fits, Changed, NoWrap, LinkIn;
      ghost var list := AreasOf(s, g, p);
      InsertOkIff(list, k, psize, a);
      Attach(p, prev, act, c, a, s, k);
      ChangedOk(s, old(g), S(), g, p, Inserted(list, k, a));
      nvma := nvma[p := nvma[p] + 1];
    }

    /** The loop of munmap: the first area of p that covers the range. */
    method Find(p: nat, addr: Uint64, length: Uint64) returns (prev: int, act: int, ghost k: nat)
      requires Valid() && p < |heads|
      ensures k == FirstCover(AreasAt(p), addr, length, 0) && act == At(g.chains[p], k)
      ensures prev == (if k == 0 then NULL else g.chains[p][k - 1])
    {
      hide Struct, AreasOk;
      ghost var list := AreasAt(p);
      prev, act, k := NULL, heads[p], 0;
      Walk(S(), g, p, 0);
      var i := 0;
      while i < nvma[p]
        invariant 0 <= i == k <= |list| && FirstCover(list, addr, length, k) == FirstCover(list, addr, length, 0)
        invariant act == At(g.chains[p], k) && prev == (if k == 0 then NULL else g.chains[p][k - 1])
      {
        Walk(S(), g, p, k);
        if Covers(slots[act].area, addr, length) {
          return;
        }
        prev, act, k, i := act, slots[act].next, k + 1, i + 1;
      }
    }

    /** freeVma. */
    method FreeVma(p: nat, prev: int, act: int, ghost k: nat)
      requires Sound() && CanRemove(S(), g, p, k) && act == g.chains[p][k]
      requires prev == (if k == 0 then NULL else g.chains[p][k - 1])
      modifies this`slots, this`heads, this`refs, this`nvma, this`g
      ensures Changed(old(S()), old(g), S(), g, p, Removed(old(AreasAt(p)), k))
      ensures refs == DropOne(old(refs), old(AreasAt(p))[k].file) && nvma == old(nvma)[p := old(nvma)[p] - 1]
      ensures |heads| == old(|heads|) && |slots| == VMAS_STORED && g == RemovePlan(old(g), p, k)
    {
      hide Struct, Changed;
      ghost var s := S();
      RemoveShows(s, g, p, k);
      Walk(s, g, p, k);
      if prev == NULL {
        heads := heads[p := slots[act].next];
      } else {
        slots := slots[prev := slots[prev].(next := slots[act].next)];
      }
      refs := DropOne(refs, slots[act].area.file);
      slots := slots[act := EMPTY];
      nvma := nvma[p := nvma[p] - 1];
      assert S() == RemovePool(s, p, g.chains[p], k);
      g := RemovePlan(g, p, k);
    }

    method Munmap(p: nat, addr: Uint64, length: Uint64) returns (r: int)
      requires Valid() && p < |heads|
      modifies this
      ensures Sound() && |heads| == old(|heads|)
      ensures r == -1 <==> forall k | 0 <= k < |old(AreasAt(p))| :: !Covers(old(AreasAt(p))[k], addr, length)
      ensures r == -1 ==> S() == old(S()) && g == old(g) && nvma == old(nvma)
      ensures r != -1 ==> r == 0 && Unmapped(old(S()), old(g), S(), g, p, addr, length)
      ensures r != -1 ==>
                (Valid() <==> StaysFull(old(AreasAt(p)), addr, length))
    {
      hide Struct, AreasOk, Covers, Changed;
      var prev, act;
      ghost var k;
      prev, act, k := Find(p, addr, length);
      Walk(S(), g, p, k);
      if act == NULL {
        return -1;
      }
      ghost var list := AreasAt(p);
      assert AreasOk(list);
      if Whole(slots[act].area, length) {
        RemoveOk(list, k);
        FreeVma(p, prev, act, k);
        ChangedOk(old(S()), old(g), S(), g, p, Removed(list, k));
      } else {
        CutOk(list, k, addr, length);
        Cut(p, act, addr, length, k);
        ChangedOk(old(S()), old(g), S(), g, p, list[k := Left(list[k], addr, length)]);
      }
      return 0;
    }

    /** The new start, or the new end, of an area that is not unmapped whole. */
    method Cut(p: nat, act: int, addr: Uint64, length: Uint64, ghost k: nat)
      requires Sound() && CanRemove(S(), g, p, k) && act == g.chains[p][k]
      modifies this`slots
      ensures |slots| == VMAS_STORED
      ensures Changed(old(S()), g, S(), g, p, old(AreasAt(p))[k := Left(old(AreasAt(p))[k], addr, length)])
    {
      hide Struct, Changed;
      ghost var s := S();
      Walk(s, g, p, k);
      var a := slots[act].area;
      TrimShows(s, g, p, k, Left(a, addr, length));
      if a.lo == addr {
        slots := slots[act := slots[act].(area := a.(lo := Add(a.lo, PageUp(length))))];
      } else {
        slots := slots[act := slots[act].(area := a.(hi := PageDown(addr)))];
      }
      assert S() == TrimPool(s, act, Left(a, addr, length));
    }

    /** One turn of the loop of exit, when areas m and on of the list are left. */
    method UnmapFirst(p: nat, ghost s0: Pool, ghost g0: Plan, ghost list: seq<Area>, ghost m: nat)
      requires Valid() && p < |heads| && nvma[p] > 0 && m < |list|
      requires Changed(s0, g0, S(), g, p, list[m..]) && AreasAt(p) == list[m..]
      modifies this
      ensures Valid() && |heads| == old(|heads|) && |refs| == old(|refs|)
      ensures Changed(s0, g0, S(), g, p, list[m + 1..]) && AreasAt(p) == list[m + 1..]
      ensures forall f: nat | f < |refs| :: OfFile(list[..m + 1], f) == OfFile(list[..m], f) + old(refs)[f] - refs[f]
    {
      hide Struct, AreasOk, Unmapped, Changed, OfFile, Whole, Covers, FirstCover, StaysFull;
      ghost var s, h := S(), g;
      Walk(s, g, p, 0);
      var act := slots[heads[p]].area;
      FirstIsWhole(list[m..]);
      var _ := Munmap(p, act.lo, act.hi - act.lo);
      UnmappedFirst(s0, g0, s, h, S(), g, p, list, m);
    }

    /** The loop of exit. */
    method UnmapAll(p: nat)
      requires Valid() && p < |heads|
      modifies this
      ensures Valid() && |heads| == old(|heads|) && nvma[p] == 0
      ensures Changed(old(S()), old(g), S(), g, p, [])
      ensures |refs| == old(|refs|) && forall f | 0 <= f < |refs| :: refs[f] == old(refs)[f] - OfFile(old(AreasAt(p)), f)
      ensures forall i | i in old(g).chains[p] :: 0 <= i < VMAS_STORED && !slots[i].used
    {
      hide Struct, AreasOk, Unmapped, Changed, OfFile, Whole, Covers, FirstCover, StaysFull;
      ghost var list := AreasAt(p);
      ghost var m := 0;
      ChangedSame(S(), g, p);
      OfNone();
      while nvma[p] > 0
        invariant Valid() && |heads| == old(|heads|) && |refs| == old(|refs|) && 0 <= m <= |list|
        invariant Changed(old(S()), old(g), S(), g, p, list[m..]) && AreasAt(p) == list[m..]
        invariant forall f | 0 <= f < |refs| :: refs[f] == old(refs)[f] - OfFile(list[..m], f)
        decreases |list| - m
      {
        UnmapFirst(p, old(S()), old(g), list, m);
        m := m + 1;
      }
      assert list[m..] == [] && list[..m] == list;
      SlotsBack(old(S()), old(g), S(), g, p);
    }

    /** The inner loop of the copy in fork, which starts looking at c0. */
    method NextFree(c0: nat) returns (r: Search)
      requires |slots| == VMAS_STORED
      ensures r.Found? <==> FreeFrom(slots, c0) > 0
      ensures r.Found? ==> c0 <= r.c < |slots| && !slots[r.c].used && FreeFrom(slots, r.c + 1) == FreeFrom(slots, c0) - 1
      ensures r.Past? <==> c0 >= VMAS_STORED
      ensures r.Full? ==> slots[VMAS_STORED - 1].used
    {
      var c := c0;
      while c < VMAS_STORED
        invariant c0 <= c && FreeFrom(slots, c) == FreeFrom(slots, c0) && (c0 < VMAS_STORED ==> c < VMAS_STORED)
      {
        if !slots[c].used {
          return Found(c);
        }
        if c == VMAS_STORED - 1 {
          return Full;
        }
        c := c + 1;
      }
      return Past;
    }

    /** One turn of the copy in fork: area i of p goes to the free slot c. */
    method CopyArea(np: nat, act: int, pindex: int, c: nat, ghost s0: Pool, ghost g0: Plan, ghost p: nat, ghost list: seq<Area>, ghost i: nat)
      requires |slots| == |g.owner| == VMAS_STORED && c < VMAS_STORED && !slots[c].used
      requires i < |list| && Changed(s0, g0, S(), g, np, list[..i]) && p < |g0.chains| && p != np
      requires AreasOf(s0, g0, p) == list && act == At(g0.chains[p], i)
      requires |g.chains[np]| == i && pindex == (if i == 0 then NULL else g.chains[np][i - 1])
      modifies this`slots, this`heads, this`refs, this`g
      ensures |slots| == |g.owner| == VMAS_STORED && |heads| == old(|heads|) && |refs| == old(|refs|)
      ensures Changed(s0, g0, S(), g, np, list[..i + 1]) && |g.chains[np]| == i + 1 && g.chains[np][i] == c
      ensures forall k | 0 <= k < VMAS_STORED && k != c :: slots[k].used == old(slots)[k].used
      ensures forall f: nat | f < |refs| :: OfFile(list[..i + 1], f) == OfFile(list[..i], f) + refs[f] - old(refs)[f]
    {
      hide Struct, OfFile, FreeFrom, Changed;
      ghost var s, h := S(), g;
      ForkSees(s0, g0, s, h, np, list, i, p);
      Attach(np, pindex, NULL, c, slots[act].area, s, i);
      ForkStep(s0, g0, s, h, S(), g, np, list, i, c);
    }

    /** The copy of the parent's areas to a child that has none. With too few free slots only the
        first areas are copied although the child counts them all; then it fails, unless the last
        slot of the pool was free, so that the search ends there unnoticed. */
    method Fork(p: nat, np: nat) returns (ok: bool)
      requires Valid() && p < |heads| && np < |heads| && p != np && g.chains[np] == []
      modifies this
      ensures |heads| == old(|heads|) && nvma == old(nvma[np := nvma[p]])
      ensures ok <==> old(FreeFrom(slots, 0) >= nvma[p] || !slots[VMAS_STORED - 1].used)
      ensures Valid() <==> old(FreeFrom(slots, 0) >= nvma[p])
      ensures var copied := First(old(AreasAt(p)), old(FreeFrom(slots, 0)));
              && Changed(old(S()), old(g), S(), g, np, copied)
              && |refs| == old(|refs|) && forall f | 0 <= f < |refs| :: refs[f] == old(refs)[f] + OfFile(copied, f)
    {
      hide Struct, AreasOk, OfFile, Changed, FreeFrom;
      ghost var list, all, m := AreasAt(p), FreeFrom(slots, 0), 0;
      nvma := nvma[np := nvma[p]];
      Walk(S(), g, p, 0);
      ForkStart(S(), g, np);
      OfNone();
      var act, pindex, i := heads[p], NULL, 0;
      var c: nat := 0;
      while i < nvma[p]
        invariant 0 <= i <= |list| && (i > all ==> c >= VMAS_STORED) && m == (if i < all then i else all) && |slots| == |g.owner| == VMAS_STORED
        invariant |heads| == old(|heads|) == |g.chains| && |refs| == old(|refs|)
        invariant nvma == old(nvma[np := nvma[p]]) && nvma[p] == |list|
        invariant Changed(old(S()), old(g), S(), g, np, list[..m])
        invariant g.chains[p] == old(g).chains[p] && act == At(g.chains[p], i)
        invariant |g.chains[np]| == m && pindex == (if m == 0 then NULL else g.chains[np][m - 1])
        invariant FreeFrom(slots, c) == all - m
        invariant if c < VMAS_STORED then slots[VMAS_STORED - 1].used == old(slots)[VMAS_STORED - 1].used else !old(slots)[VMAS_STORED - 1].used
        invariant forall f | 0 <= f < |refs| :: refs[f] == old(refs)[f] + OfFile(list[..m], f)
      {
        var found := NextFree(c);
        if found.Full? {
          ForkEnds(old(S()), old(g), S(), g, np, list, m, nvma);
          return false;
        }
        if found.Found? {
          ghost var before := slots;
          CopyArea(np, act, pindex, found.c, old(S()), old(g), p, list, i);
          FreeFrame(before, slots, found.c + 1);
          pindex, c, m := found.c, found.c, m + 1;
        }
        NoneFrom(slots, c);
        ForkNext(old(S()), old(g), S(), g, np, list, m, p, i);
        act, c, i := slots[act].next, c + 1, i + 1;
      }
      ForkEnds(old(S()), old(g), S(), g, np, list, m, nvma);
      return true;
    }
  }

  lemma ForkStart(s: Pool, g: Plan, np: nat)
    requires Struct(s, g) && np < |g.chains| && g.chains[np] == []
    ensures Changed(s, g, s, g, np, [])
  {
  }

  lemma ForkNext(s0: Pool, g0: Plan, s: Pool, g: Plan, np: nat, list: seq<Area>, m: nat, p: nat, i: nat)
    requires m <= |list| && Changed(s0, g0, s, g, np, list[..m]) && p < |g0.chains| && p != np
    requires AreasOf(s0, g0, p) == list && i < |list|
    ensures |g.chains| == |g0.chains| && g.chains[p] == g0.chains[p] && i < |g.chains[p]|
    ensures 0 <= g.chains[p][i] < |s.slots| && s.slots[g.chains[p][i]].next == At(g.chains[p], i + 1)
  {
    hide Struct;
    ForkSees(s0, g0, s, g, np, list, m, p);
    Walk(s, g, p, i);
  }

  /** After the copy the child's count is right exactly when all areas were copied. */
  lemma ForkEnds(s0: Pool, g0: Plan, s: Pool, g: Plan, np: nat, list: seq<Area>, m: nat, nvma: seq<int>)
    requires m <= |list| && Changed(s0, g0, s, g, np, list[..m]) && Struct(s0, g0) && AllOk(s0, g0) && AreasOk(list)
    requires |nvma| == |g0.chains| && nvma[np] == |list| <= MAX_VMAS && Counted(nvma[np := |g0.chains[np]|], g0.chains)
    ensures Struct(s, g) && AllOk(s, g) && |g.chains| == |g0.chains|
    ensures Counted(nvma, g.chains) <==> m == |list|
    ensures First(list, m) == list[..m]
  {
    hide Struct;
    ChangedOk(s0, g0, s, g, np, list[..m]);
    assert AreasOk(list[..m]);
    if m == |list| {
      assert list[..m] == list;
    }
  }

  /** In the middle of the copy the parent's chain is as it was. */
  lemma ForkSees(s0: Pool, g0: Plan, s: Pool, g: Plan, np: nat, list: seq<Area>, i: nat, p: nat)
    requires i <= |list| && Changed(s0, g0, s, g, np, list[..i]) && p < |g0.chains| && p != np
    requires AreasOf(s0, g0, p) == list
    ensures Struct(s, g) && |g.chains| == |g0.chains| && g.chains[p] == g0.chains[p] && AreasOf(s, g, p) == list
    ensures np < |g.chains| && |g.chains[np]| == i
    ensures i < |list| ==> 0 <= g.chains[p][i] < |s.slots| && s.slots[g.chains[p][i]].area == list[i] && list[i].file < |s.refs|
    ensures i > 0 ==> 0 <= g.chains[p][i - 1] < |s.slots| && s.slots[g.chains[p][i - 1]].next == At(g.chains[p], i)
  {
    hide Struct;
    Walk(s, g, p, i);
    if i > 0 {
      Walk(s, g, p, i - 1);
    }
  }

  lemma ForkStep(s0: Pool, g0: Plan, s: Pool, g: Plan, t: Pool, h: Plan, np: nat, list: seq<Area>, i: nat, c: nat)
    requires i < |list| && Changed(s0, g0, s, g, np, list[..i])
    requires Changed(s, g, t, h, np, Inserted(AreasOf(s, g, np), i, list[i]))
    requires list[i].file < |s.refs| && t.refs == s.refs[list[i].file := s.refs[list[i].file] + 1]
    ensures Changed(s0, g0, t, h, np, list[..i + 1])
    ensures forall f: nat | f < |s.refs| :: OfFile(list[..i + 1], f) == OfFile(list[..i], f) + t.refs[f] - s.refs[f]
  {
    hide Struct;
    assert list[..i + 1] == list[..i] + [list[i]] == Inserted(list[..i], i, list[i]);
    forall f: nat | f < |s.refs|
      ensures OfFile(list[..i + 1], f) == OfFile(list[..i], f) + t.refs[f] - s.refs[f]
    {
      OfFileAppend(list[..i], list[i], f);
    }
    forall q: nat | q < |g0.chains| && q != np ensures h.chains[q] == g0.chains[q] && AreasOf(t, h, q) == AreasOf(s0, g0, q) {
      assert h.chains[q] == g.chains[q] && AreasOf(t, h, q) == AreasOf(s, g, q);
    }
  }

  lemma ChangedSame(s: Pool, g: Plan, p: nat)
    requires Struct(s, g) && p < |g.chains|
    ensures Changed(s, g, s, g, p, AreasOf(s, g, p)) && AreasOf(s, g, p)[0..] == AreasOf(s, g, p)
  {
  }

  lemma OfNone()
    ensures forall f :: OfFile([], f) == 0
  {
  }

  /** The first area of a process is unmapped whole when its own bounds are given. */
  lemma FirstIsWhole(list: seq<Area>)
    requires AreasOk(list) && list != []
    ensures AreaOk(list[0])
    ensures FirstCover(list, list[0].lo, list[0].hi - list[0].lo, 0) == 0
    ensures Covers(list[0], list[0].lo, list[0].hi - list[0].lo) && Whole(list[0], list[0].hi - list[0].lo)
    ensures StaysFull(list, list[0].lo, list[0].hi - list[0].lo)
  {
    hide PageUp;
    assert AreaOk(list[0]);
    PageUpBounds(list[0].hi - list[0].lo, list[0].hi - list[0].lo);
  }

  /** One turn of the loop of exit. */
  lemma UnmappedFirst(s0: Pool, g0: Plan, s: Pool, g: Plan, t: Pool, h: Plan, p: nat, list: seq<Area>, m: nat)
    requires m < |list| && Changed(s0, g0, s, g, p, list[m..]) && AreaOk(list[m])
    requires FirstCover(list[m..], list[m].lo, list[m].hi - list[m].lo, 0) == 0 && Whole(list[m], list[m].hi - list[m].lo)
    requires Unmapped(s, g, t, h, p, list[m].lo, list[m].hi - list[m].lo)
    ensures Changed(s0, g0, t, h, p, list[m + 1..]) && |t.refs| == |s.refs|
    ensures Struct(t, h) && p < |h.chains| && AreasOf(t, h, p) == list[m + 1..]
    ensures forall f: nat | f < |s.refs| :: OfFile(list[..m + 1], f) == OfFile(list[..m], f) + s.refs[f] - t.refs[f]
  {
    hide Struct, Whole, Covers, AreaOk, FirstCover;
    assert Removed(list[m..], 0) == list[m + 1..] && list[..m + 1] == list[..m] + [list[m]];
    forall f: nat | f < |s.refs|
      ensures OfFile(list[..m + 1], f) == OfFile(list[..m], f) + s.refs[f] - t.refs[f]
    {
      OfFileAppend(list[..m], list[m], f);
    }
    forall q: nat | q < |g0.chains| && q != p ensures h.chains[q] == g0.chains[q] && AreasOf(t, h, q) == AreasOf(s0, g0, q) {
      assert h.chains[q] == g.chains[q] && AreasOf(t, h, q) == AreasOf(s, g, q);
    }
  }

  /** Slots of a process whose chain has become empty are free again. */
  lemma SlotsBack(s: Pool, g: Plan, t: Pool, h: Plan, p: nat)
    requires Changed(s, g, t, h, p, [])
    ensures forall i | i in g.chains[p] :: 0 <= i < VMAS_STORED && !t.slots[i].used
  {
    hide Linked, Users;
    assert Owned(g, p);
    forall i | i in g.chains[p] ensures 0 <= i < VMAS_STORED && !t.slots[i].used {
      assert SlotOk(t, h, i);
    }
  }

  lemma CutOk(list: seq<Area>, k: nat, addr: Uint64, length: Uint64)
    requires AreasOk(list) && k < |list| && Covers(list[k], addr, length) && !Whole(list[k], length)
    ensures AreasOk(list[k := Left(list[k], addr, length)]) <==> !(list[k].lo < addr < list[k].lo + PGSIZE)
  {
    assert AreaOk(list[k]);
    LeftOkIff(list[k], addr, length);
    TrimOk(list, k, Left(list[k], addr, length));
  }

  /** The first area from j on that covers the range, or the end. */
  function FirstCover(list: seq<Area>, addr: Uint64, length: Uint64, j: nat): (k: nat)
    requires j <= |list|
    ensures j <= k <= |list| && (k < |list| ==> Covers(list[k], addr, length))
    ensures forall i | j <= i < k :: !Covers(list[i], addr, length)
    decreases |list| - j
  {
    if j == |list| || Covers(list[j], addr, length) then j else FirstCover(list, addr, length, j + 1)
  }

  /** munmap leaves no empty area behind. */
  predicate StaysFull(list: seq<Area>, addr: Uint64, length: Uint64) {
    var k := FirstCover(list, addr, length, 0);
    k < |list| ==> Whole(list[k], length) || !(list[k].lo < addr < list[k].lo + PGSIZE)
  }

  function DropOne(refs: seq<int>, f: nat): (r: seq<int>)
    requires f < |refs|
  {
    refs[f := refs[f] - 1]
  }

  /** After munmap: the covering area is gone, with its reference, or is cut. */
  ghost predicate Unmapped(s: Pool, g: Plan, t: Pool, h: Plan, p: nat, addr: Uint64, length: Uint64)
    requires Struct(s, g) && p < |g.chains|
  {
    var list := AreasOf(s, g, p);
    var k := FirstCover(list, addr, length, 0);
    k < |list| && list[k].file < |s.refs| &&
    if Whole(list[k], length)
    then Changed(s, g, t, h, p, Removed(list, k)) && t.refs == DropOne(s.refs, list[k].file)
    else Changed(s, g, t, h, p, list[k := Left(list[k], addr, length)]) && t.refs == s.refs
  }

  lemma NewIsThere(s: Pool, g: Plan, t: Pool, h: Plan, p: nat, k: nat, a: Area)
    requires Struct(s, g) && p < |g.chains| && k <= |AreasOf(s, g, p)| && Changed(s, g, t, h, p, Inserted(AreasOf(s, g, p), k, a))
    ensures Struct(t, h) && p < |h.chains| && a in AreasOf(t, h, p)
  {
  }

  /** After mmap at r: first fit, one more area, one more reference. */
  ghost predicate Mapped(s: Pool, g: Plan, t: Pool, h: Plan, p: nat, length: Uint64, prot: int, flag: int, f: nat, r: int)
    requires Struct(s, g) && p < |g.chains| && f < |s.refs|
  {
    var list := AreasOf(s, g, p);
    var k := FirstFit(list, PageUp(length), 0);
    && r == Base(list, k)
    && Changed(s, g, t, h, p, Inserted(list, k, NewArea(r, length, prot, flag, f)))
    && t.refs == s.refs[f := s.refs[f] + 1]
  }

  lemma {:induction false} NoUsers(slots: seq<Slot>, f: nat)
    requires forall i | 0 <= i < |slots| :: !slots[i].used
    ensures Users(slots, f) == 0
  {
    if slots != [] {
      NoUsers(slots[..|slots| - 1], f);
    }
  }

  lemma FdsKeep(s: Pool, g: Plan, t: Pool, h: Plan)
    requires Struct(s, g) && AllOk(s, g) && t == s.(refs := t.refs) && h == g.(fds := h.fds)
    requires |t.refs| == |s.refs| == |h.fds| && forall f: nat | f < |t.refs| :: t.refs[f] + g.fds[f] == s.refs[f] + h.fds[f]
    ensures Struct(t, h) && AllOk(t, h)
  {
    hide Users, AreasOk;
    forall i: nat | i < |t.slots| ensures SlotOk(t, h, i) {
      assert SlotOk(s, g, i);
    }
    forall p: nat | p < |h.chains| ensures Linked(t.slots, t.heads[p], h.chains[p]) && Owned(h, p) {
      assert Linked(s.slots, s.heads[p], g.chains[p]) && Owned(g, p);
    }
    forall p: nat | p < |h.chains| ensures AreasOk(AreasOf(t, h, p)) {
      assert AreasOf(t, h, p) == AreasOf(s, g, p);
    }
  }

  lemma AttachSizes(s: Pool, g: Plan, p: nat, k: nat, c: nat, a: Area)
    requires CanInsert(s, g, p, k, c, a)
    ensures |s.slots| == VMAS_STORED && p < |s.heads| && a.file < |s.refs| && c < |g.owner| && p < |g.chains|
    ensures k == 0 ==> At(g.chains[p], 0) == NULL
    ensures k > 0 ==> 0 <= g.chains[p][k - 1] < |s.slots| && g.chains[p][k - 1] != c
  {
    assert Owned(g, p) && SlotOk(s, g, c);
  }

  /** Position k of a chain in the pool: its slots, their areas and its end. */
  lemma Walk(s: Pool, g: Plan, p: nat, k: nat)
    requires Struct(s, g) && p < |g.chains| && k <= |g.chains[p]|
    ensures s.heads[p] == At(g.chains[p], 0)
    ensures At(g.chains[p], k) == NULL <==> k == |g.chains[p]|
    ensures k < |g.chains[p]| ==> 0 <= g.chains[p][k] < |s.slots|
    ensures k < |g.chains[p]| ==> s.slots[g.chains[p][k]].next == At(g.chains[p], k + 1) && s.slots[g.chains[p][k]].used
    ensures k < |g.chains[p]| ==> s.slots[g.chains[p][k]].area == AreasOf(s, g, p)[k]
    ensures k < |g.chains[p]| ==> s.slots[g.chains[p][k]].area.file < |s.refs|
    ensures k > 0 ==> 0 <= g.chains[p][k - 1] < |s.slots| && s.slots[g.chains[p][k - 1]].area == AreasOf(s, g, p)[k - 1]
  {
    InRange(s, g, p);
    assert Linked(s.slots, s.heads[p], g.chains[p]) && Owned(g, p);
    assert k < |g.chains[p]| ==> IsLink(s.slots, g.chains[p], k);
  }
}
