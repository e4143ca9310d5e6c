/** Virtual memory of kernel/vm.c over the page allocator: each operation is tied to the flat map
    from page number to leaf entry that its page table stands for. */
module Vm {
  import opened PageTree
  import opened FreeWalk
  import Blocks
  import opened Common
  import opened Counting
  import K = Kalloc

  const MAXVA := 0x40_0000_0000
  const NULL := K.NULL
  const PTE_R := 2
  const PTE_W := 4
  const PTE_X := 8
  const PTE_U := 16
  const USER := PTE_R + PTE_W + PTE_X + PTE_U

  type Addr = x: int | 0 <= x < WORD
  type Page = p: seq<Blocks.Byte> | |p| == PGSIZE witness Filled(0)

  datatype Outcome = Ok | NoMemory | Panic

  ghost predicate TablesBusy(tables: Tables, busy: set<nat>) {
    forall f | f in tables :: f in busy
  }

  class Vm {
    const kmem: K.Kmem
    var tables: Tables // table pages
    var data: map<Frame, Page> // contents of the other pages
    ghost var g: Plan

    ghost predicate Valid()
      reads this, kmem
    {
      kmem.Valid() && Inv(tables, g) && TablesBusy(tables, kmem.busy)
    }

    ghost function Leaf(r: Frame, v: nat): (e: Pte)
      requires Inv(tables, g) && r in g.trees && v < LEAVES
      reads this`tables, this`g
    {
      Flat(tables, g, r, v)
    }

    constructor (end: nat)
      requires end < K.PHYSTOP
      ensures Valid() && g.trees == map[] && fresh(kmem) && kmem.busy == {}
    {
      kmem := new K.Kmem(end);
      tables, data := map[], map[];
      g := Plan(map[], map[]);
    }

    /** A level-1 or level-0 table for page v, when the entry that should point to it is not valid. */
    method AddTable(r: Frame, ghost v: nat, level: nat, table: Frame, i: nat) returns (f: int)
      requires Valid() && r in g.trees && v < LEAVES && 1 <= level <= 2
      requires level == 2 ==> table == r && i == Px2(v) && i !in g.trees[r].mid
      requires level == 1 ==> Px2(v) in g.trees[r].mid && table == g.trees[r].mid[Px2(v)]
      requires level == 1 ==> i == Px1(v) && (Px2(v), Px1(v)) !in g.trees[r].low
      modifies this`tables, this`g, kmem
      ensures Valid() && SameFlat(old(tables), old(g), tables, g)
      ensures f == NULL <==> old(kmem.free) == []
      ensures f == NULL ==> tables == old(tables) && g == old(g) && kmem.busy == old(kmem.busy) && kmem.free == old(kmem.free)
      ensures f != NULL ==> f in old(kmem.free) && f in tables && kmem.busy == old(kmem.busy) + {f}
      ensures f != NULL ==> tables.Keys == old(tables.Keys) + {f} && r in g.trees
      ensures f != NULL && level == 2 ==> g == MidPlan(old(g), r, i, f)
      ensures f != NULL && level == 1 ==> g == LowPlan(old(g), r, Px2(v), Px1(v), f)
      ensures Paid(old(g), g, r, old(|kmem.free|), |kmem.free|, Path(v), 0)
    {
      hide Inv, SameFlat, Px2, Px1, Px0, Paid, Path, Held;
      PaidNone(g, r, |kmem.free|, Path(v));
      f := kmem.Kalloc();
      InvSame(tables, g, r);
      if f != NULL {
        if level == 2 {
          AddMidFlat(tables, g, r, i, f);
        } else {
          MidHere(tables, g, r, Px2(v));
          AddLowFlat(tables, g, r, Px2(v), i, f);
        }
        tables := tables[f := ZeroTable()];
        tables := tables[table := tables[table][i := Entry(f, PTE_V)]];
        assert tables == WithTable(old(tables), table, i, f);
        if level == 2 {
          PaidMid(g, r, v, f, old(|kmem.free|));
          g := MidPlan(g, r, i, f);
        } else {
          PaidLow(g, r, v, f, old(|kmem.free|));
          g := LowPlan(g, r, Px2(v), i, f);
        }
      }
    }

    /** Pages in use that are not table pages. */
    ghost function Others(): (r: set<nat>)
      reads this`tables, kmem
    {
      kmem.busy - tables.Keys
    }

    method Walk(r: Frame, va: Addr, alloc: bool) returns (out: Outcome, table: Frame, i: nat)
      requires Valid() && r in g.trees
      modifies this`tables, this`g, kmem
      ensures Valid() && SameFlat(old(tables), old(g), tables, g) && Others() == old(Others())
      ensures !alloc ==> tables == old(tables) && g == old(g) && kmem.busy == old(kmem.busy) && kmem.free == old(kmem.free)
      ensures out == Panic <==> va >= MAXVA
      ensures out == Panic ==> tables == old(tables) && g == old(g) && kmem.busy == old(kmem.busy)
      ensures out == NoMemory ==> va < MAXVA && !HasTable(g, r, va / PGSIZE) && (alloc ==> kmem.free == [])
      ensures out == Ok ==> HasTable(g, r, va / PGSIZE) && table == LeafTable(g, r, va / PGSIZE) && i == Px0(va / PGSIZE)
      ensures kmem.busy >= old(kmem.busy) && r in g.trees
      ensures va < MAXVA ==> Paid(old(g), g, r, old(|kmem.free|), |kmem.free|, Path(va / PGSIZE), 0)
    {
      hide Inv, SameFlat, TablesBusy, Px2, Px1, Px0, Paid;
      InvSame(tables, g, r);
      if va >= MAXVA {
        return Panic, 0, 0;
      }
      var v := va / PGSIZE;
      PaidNone(g, r, |kmem.free|, Path(v));
      table := r;
      var level := 2;
      while level > 0
        invariant 0 <= level <= 2 && Valid() && SameFlat(old(tables), old(g), tables, g) && r in g.trees
        invariant Others() == old(Others()) && kmem.busy >= old(kmem.busy)
        invariant !alloc ==> tables == old(tables) && g == old(g) && kmem.busy == old(kmem.busy) && kmem.free == old(kmem.free)
        invariant Reached(g, r, v, level, table)
        invariant Paid(old(g), g, r, old(|kmem.free|), |kmem.free|, Path(v), 0)
      {
        ghost var before, h, n := tables, g, |kmem.free|;
        var next;
        out, next := Descend(r, v, level, table, alloc);
        PaidBoth(old(g), h, g, r, old(|kmem.free|), n, |kmem.free|, Path(v), Path(v), 0, 0);
        assert Path(v) + Path(v) == Path(v);
        SameTwice(old(tables), old(g), before, h, tables, g);
        if out == NoMemory {
          return out, 0, 0;
        }
        table, level := next, level - 1;
      }
      return Ok, table, Px0(v);
    }

    /** One turn of the loop of walk. */
    method Descend(r: Frame, v: nat, level: nat, table: Frame, alloc: bool) returns (out: Outcome, next: Frame)
      requires Valid() && r in g.trees && v < LEAVES && 1 <= level <= 2 && Reached(g, r, v, level, table)
      modifies this`tables, this`g, kmem
      ensures Valid() && SameFlat(old(tables), old(g), tables, g) && Others() == old(Others())
      ensures !alloc ==> tables == old(tables) && g == old(g) && kmem.busy == old(kmem.busy) && kmem.free == old(kmem.free)
      ensures out != Panic && r in g.trees && kmem.busy >= old(kmem.busy)
      ensures out == NoMemory ==> !HasTable(g, r, v) && (alloc ==> kmem.free == [])
      ensures out == Ok ==> Reached(g, r, v, level - 1, next)
      ensures Paid(old(g), g, r, old(|kmem.free|), |kmem.free|, Path(v), 0)
    {
      hide Inv, SameFlat, TablesBusy, Px2, Px1, Px0, Paid;
      PaidNone(g, r, |kmem.free|, Path(v));
      var i := if level == 2 then Px2(v) else Px1(v);
      ReachedEntry(tables, g, r, v, level, table);
      InvSame(tables, g, r);
      var pte := tables[table][i];
      if IsValid(pte) {
        return Ok, FrameOf(pte);
      }
      if !alloc {
        return NoMemory, 0;
      }
      var f := AddTable(r, v, level, table, i);
      if f == NULL {
        return NoMemory, 0;
      }
      return Ok, f;
    }

    /** The store through the pointer that walk returned for page v. */
    method SetPte(r: Frame, ghost v: nat, table: Frame, i: nat, e: Pte)
      requires Valid() && HasTable(g, r, v) && table == LeafTable(g, r, v) && i == Px0(v)
      modifies this`tables
      ensures Valid() && FlatSet(old(tables), g, tables, r, v, e) && tables.Keys == old(tables.Keys)
    {
      hide Inv, FlatSet, Px2, Px1, Px0;
      SetFlat(tables, g, r, v, e);
      tables := tables[table := tables[table][i := e]];
    }

    method Mappages(r: Frame, va: Addr, size: Addr, pa: Addr, perm: nat) returns (out: Outcome, ghost es: seq<Pte>)
      requires Valid() && r in g.trees && perm < 1024
      modifies this`tables, this`g, kmem
      ensures Valid() && Others() == old(Others()) && kmem.busy >= old(kmem.busy) && r in g.trees
      ensures size == 0 || va >= MAXVA ==> out == Panic && es == [] && tables == old(tables) && g == old(g)
      ensures va < MAXVA ==> FlatRange(old(tables), old(g), tables, g, r, va / PGSIZE, es)
      ensures Consecutive(es, pa, perm)
      ensures va < MAXVA ==> NoneValid(old(tables), old(g), r, va / PGSIZE, |es|)
      ensures out == Ok ==> size > 0 && |es| == LastPage(va, size) - va / PGSIZE + 1
      ensures out == Ok && va + size <= WORD ==>
                forall w: nat :: va / PGSIZE <= w < va / PGSIZE + |es| <==> Meets(w, va, size)
      ensures pa + |es| * PGSIZE <= WORD ==> forall k: nat | k < |es| :: FrameOf(es[k]) == pa / PGSIZE + k && FlagsOf(es[k]) / 2 == perm / 2
      ensures out == NoMemory ==> kmem.free == [] && size > 0 && va / PGSIZE + |es| < LEAVES && !HasTable(g, r, va / PGSIZE + |es|)
      ensures va < MAXVA && size > 0 && out != Panic ==>
                PaidRange(old(g), g, r, old(|kmem.free|), |kmem.free|, va / PGSIZE, if out == Ok then |es| else |es| + 1)
      ensures out != Ok && size > 0 && va / PGSIZE <= LastPage(va, size) ==> |es| <= LastPage(va, size) - va / PGSIZE
      ensures out == Panic && size > 0 ==>
                va / PGSIZE + |es| >= LEAVES || IsValid(Flat(old(tables), old(g), r, va / PGSIZE + |es|))
    {
      hide Inv, SameFlat, FlatRange, FlatSet, Flat, TablesBusy, Px2, Px1, Px0, Entry, IsValid, LastPage, NoneValid, PaidRange, Paid, HasTable, Consecutive, Meets;
      es := [];
      NoEntries(pa, perm);
      if va < MAXVA {
        RangeStart(tables, g, r, va / PGSIZE);
        NoneYet(tables, g, r, va / PGSIZE);
      }
      if size == 0 || va >= MAXVA {
        assert va >= MAXVA ==> va / PGSIZE >= LEAVES;
        return Panic, es;
      }
      var v, last, p := va / PGSIZE, LastPage(va, size), pa;
      ghost var v0 := v;
      PaidStart(g, r, |kmem.free|, v0);
      while true
        invariant v == v0 + |es| <= LEAVES && p == (pa + |es| * PGSIZE) % WORD
        invariant Valid() && Others() == old(Others()) && kmem.busy >= old(kmem.busy) && r in g.trees
        invariant FlatRange(old(tables), old(g), tables, g, r, v0, es)
        invariant Consecutive(es, pa, perm)
        invariant NoneValid(old(tables), old(g), r, v0, |es|)
        invariant v <= last || last < v0
        invariant PaidRange(old(g), g, r, old(|kmem.free|), |kmem.free|, v0, |es|)
        decreases LEAVES - v
      {
        var e := Entry(p / PGSIZE, WithValid(perm));
        ghost var m, n := g, |kmem.free|;
        out := MapOne(r, v, e, old(tables), old(g), v0, es);
        if out != Panic {
          PaidNext(old(g), m, g, r, old(|kmem.free|), n, |kmem.free|, v0, |es|);
        }
        if out != Ok {
          FramesFollow(es, pa, perm);
          return out, es;
        }
        NoneMore(old(tables), old(g), r, v0, |es|);
        OneEntry(es, pa, perm, p);
        es := es + [e];
        if v == last {
          if va + size <= WORD {
            LastPageMeets(va, size);
          }
          FramesFollow(es, pa, perm);
          return Ok, es;
        }
        v, p := v + 1, (p + PGSIZE) % WORD;
      }
    }

    /** One turn of the loop of mappages. */
    method MapOne(r: Frame, v: nat, e: Pte, ghost was: Tables, ghost h: Plan, ghost v0: nat, ghost es: seq<Pte>)
      returns (out: Outcome)
      requires Valid() && r in g.trees && v == v0 + |es| <= LEAVES && FlatRange(was, h, tables, g, r, v0, es)
      modifies this`tables, this`g, kmem
      ensures Valid() && Others() == old(Others()) && kmem.busy >= old(kmem.busy) && r in g.trees
      ensures out == Ok ==> v < LEAVES && FlatRange(was, h, tables, g, r, v0, es + [e]) && !IsValid(Flat(was, h, r, v))
      ensures out != Ok ==> FlatRange(was, h, tables, g, r, v0, es)
      ensures out == NoMemory ==> kmem.free == [] && v < LEAVES && !HasTable(g, r, v)
      ensures out != Panic ==> v < LEAVES && Paid(old(g), g, r, old(|kmem.free|), |kmem.free|, Path(v), 0)
      ensures out == Panic ==> v == LEAVES || IsValid(Flat(was, h, r, v))
    {
      hide Inv, SameFlat, FlatRange, FlatSet, TablesBusy, Px2, Px1, Px0, IsValid, Paid, Path;
      var table, i;
      ghost var before, m := tables, g;
      out, table, i := Walk(r, v * PGSIZE, true);
      RangeSame(was, h, before, m, tables, g, r, v0, es);
      assert v * PGSIZE >= MAXVA ==> v == LEAVES;
      if out != Ok {
        return;
      }
      LeafIs(tables, g, r, v);
      RangeNext(was, h, tables, g, r, v0, es, v);
      if IsValid(tables[table][i]) {
        return Panic;
      }
      before := tables;
      SetPte(r, v, table, i, e);
      RangeGrows(was, h, before, tables, g, r, v0, es, e);
    }

    /** Removes the mappings of npages pages from va on, and frees their frames if so asked. */
    method Uvmunmap(r: Frame, va: Addr, npages: Addr, doFree: bool) returns (out: Outcome, ghost was: seq<Pte>)
      requires Valid() && r in g.trees
      requires doFree ==> Freeable(tables, g, Others(), r, va / PGSIZE, Span(va, npages))
      modifies this`tables, this`data, this`g, kmem
      ensures Valid() && tables.Keys == old(tables.Keys) && g == old(g)
      ensures out == Ok <==> va % PGSIZE == 0 && AllLeaf(old(tables), g, r, va / PGSIZE, Span(va, npages))
      ensures out == Ok ==> |was| == Span(va, npages)
      ensures if va % PGSIZE == 0 && va <= MAXVA then UnmappedTo(old(tables), tables, g, r, va / PGSIZE, was)
              else was == [] && tables == old(tables)
      ensures kmem.busy == if doFree then old(kmem.busy) - FrameSet(was) else old(kmem.busy)
      ensures SameData(old(data), data, if doFree then FrameSet(was) else {})
    {
      hide Inv, Flat, TablesBusy, AllLeaf, Freeable, FrameSet, SameData, UnmappedTo, Span;
      var n := Span(va, npages);
      if va % PGSIZE != 0 {
        NothingUnmapped(tables, g, r, LEAVES, data);
        return Panic, [];
      }
      if va > MAXVA {
        NothingUnmapped(tables, g, r, LEAVES, data);
        BeyondLeaf(tables, g, r, va / PGSIZE, n);
        return if n == 0 then Ok else Panic, [];
      }
      out, was := UnmapPages(r, va / PGSIZE, n, doFree);
    }

    method UnmapPages(r: Frame, v0: nat, n: nat, doFree: bool) returns (out: Outcome, ghost was: seq<Pte>)
      requires Valid() && r in g.trees && v0 <= LEAVES
      requires doFree ==> Freeable(tables, g, Others(), r, v0, n)
      modifies this`tables, this`data, this`g, kmem
      ensures Valid() && tables.Keys == old(tables.Keys) && g == old(g)
      ensures out == Ok <==> AllLeaf(old(tables), g, r, v0, n)
      ensures out == Ok ==> |was| == n
      ensures UnmappedTo(old(tables), tables, g, r, v0, was)
      ensures kmem.busy == if doFree then old(kmem.busy) - FrameSet(was) else old(kmem.busy)
      ensures SameData(old(data), data, if doFree then FrameSet(was) else {})
    {
      hide Inv, Flat, TablesBusy, AllLeaf, Freeable, FrameSet, SameData, UnmappedTo, IsLeaf;
      was := [];
      NothingUnmapped(tables, g, r, v0, data);
      var k := 0;
      while k < n
        invariant 0 <= k == |was| <= n && Valid() && tables.Keys == old(tables.Keys) && g == old(g)
        invariant AllLeaf(old(tables), g, r, v0, k) && UnmappedTo(old(tables), tables, g, r, v0, was)
        invariant kmem.busy == if doFree then old(kmem.busy) - FrameSet(was) else old(kmem.busy)
        invariant SameData(old(data), data, if doFree then FrameSet(was) else {})
      {
        ghost var before, now := tables, data;
        LeafStep(old(tables), tables, g, old(Others()), r, v0, was, n, v0 + k, doFree);
        ghost var e;
        out, e := UnmapOne(r, v0 + k, doFree);
        if out != Ok {
          return;
        }
        UnmappedMore(old(tables), before, tables, g, r, v0, was, e);
        FrameSetMore(was, e);
        if doFree {
          SameDataMore(old(data), now, data, FrameSet(was), FrameOf(e));
        }
        was := was + [e];
        k := k + 1;
      }
      return Ok, was;
    }

    /** One turn of the loop of uvmunmap. */
    method UnmapOne(r: Frame, v: nat, doFree: bool) returns (out: Outcome, ghost e: Pte)
      requires Valid() && r in g.trees && v <= LEAVES
      requires doFree && v < LEAVES && IsLeaf(Leaf(r, v)) ==> FrameOf(Leaf(r, v)) in Others()
      modifies this`tables, this`data, this`g, kmem
      ensures Valid() && tables.Keys == old(tables.Keys) && g == old(g)
      ensures out == Ok <==> v < LEAVES && IsLeaf(old(Leaf(r, v)))
      ensures out == Ok ==> e == old(Leaf(r, v)) && FlatSet(old(tables), g, tables, r, v, 0)
      ensures out != Ok ==> tables == old(tables) && kmem.busy == old(kmem.busy) && data == old(data)
      ensures out == Ok ==> kmem.busy == if doFree then old(kmem.busy) - {FrameOf(e)} else old(kmem.busy)
      ensures out == Ok ==> if doFree then SameData(old(data), data, {FrameOf(e)}) else data == old(data)
    {
      hide Inv, FlatSet, SameFlat, Px2, Px1, Px0, IsValid, FrameOf, FlagsOf;
      var table, i;
      e := 0;
      ghost var h := g;
      out, table, i := Walk(r, v * PGSIZE, false);
      if out != Ok {
        NoLeaf(tables, g, r, v);
        return Panic, e;
      }
      LeafIs(tables, g, r, v);
      var pte := tables[table][i];
      if !IsValid(pte) || FlagsOf(pte) == PTE_V {
        return Panic, e;
      }
      e := pte;
      if doFree {
        var f := FrameOf(pte);
        kmem.Kfree(f);
        data := data[f := Filled(1)];
      }
      SetPte(r, v, table, i, 0);
    }

    /** One new page with these contents, mapped at v: the body of the loops of uvmalloc and uvmcopy. */
    method MapFresh(r: Frame, v: nat, page: Page, perm: nat) returns (ok: bool, ghost e: Pte)
      requires Valid() && r in g.trees && v < LEAVES && perm < 1024 && !IsValid(Leaf(r, v))
      modifies this`tables, this`data, this`g, kmem
      ensures Valid() && DataKept(old(data), data, old(kmem.busy)) && kmem.busy >= old(kmem.busy) && r in g.trees
      ensures !ok ==> SameFlat(old(tables), old(g), tables, g) && Others() == old(Others())
      ensures ok ==> FlatRange(old(tables), old(g), tables, g, r, v, [e]) && Others() == old(Others()) + {FrameOf(e)}
      ensures ok ==> FlagsOf(e) == WithValid(perm) && FrameOf(e) !in old(kmem.busy)
      ensures ok ==> FrameOf(e) in data && data[FrameOf(e)] == page
      ensures Paid(old(g), g, r, old(|kmem.free|), |kmem.free|, Path(v), if ok then 1 else 0)
      ensures !ok ==> kmem.free == [] || (|kmem.free| == 1 && !HasTable(g, r, v))
    {
      hide Inv, SameFlat, FlatRange, Flat, PageAfter, LastPage, NoneValid, Entry, IsValid, FrameOf, FlagsOf, Paid, HasTable, PaidRange, Path;
      PaidNone(g, r, |kmem.free|, Path(v));
      e := 0;
      InvSame(tables, g, r);
      var f := kmem.Kalloc();
      if f == NULL {
        return false, e;
      }
      data := data[f := page];
      assert f !in tables && Others() == old(Others()) + {f};
      OnePage(v, f);
      var out;
      ghost var es;
      out, es := Mappages(r, v * PGSIZE, PGSIZE, f * PGSIZE, perm);
      PaidOne(old(g), g, r, old(|kmem.free|), |kmem.free|, v);
      if out != Ok {
        RangeNone(old(tables), old(g), tables, g, r, v, es);
        ghost var more := Others();
        kmem.Kfree(f);
        data := data[f := Filled(1)];
        assert Others() == more - {f} == old(Others());
        return false, e;
      }
      e := es[0];
      assert es == [e];
      return true, e;
    }

    /** The pages in use now, and those of them that hold no table. */
    ghost function Now(): (b: Pages)
      reads this`tables, kmem
    {
      Pages(kmem.busy, Others())
    }

    /** uvmdealloc: the smaller size, or the panic of uvmunmap for a page that is not mapped. */
    method Uvmdealloc(r: Frame, oldsz: Addr, newsz: Addr) returns (out: Outcome, res: Addr, ghost was: seq<Pte>)
      requires Valid() && r in g.trees && oldsz <= MAXVA
      requires newsz < oldsz ==> Freeable(tables, g, Others(), r, PagesOf(newsz), PagesOf(oldsz) - PagesOf(newsz))
      modifies this`tables, this`data, this`g, kmem
      ensures Valid() && tables.Keys == old(tables.Keys) && g == old(g)
      ensures out == Ok <==> newsz >= oldsz || AllLeaf(old(tables), g, r, PagesOf(newsz), PagesOf(oldsz) - PagesOf(newsz))
      ensures res == if newsz < oldsz then newsz else oldsz
      ensures newsz < oldsz ==> UnmappedTo(old(tables), tables, g, r, PagesOf(newsz), was)
      ensures out == Ok ==> |was| == if newsz < oldsz then PagesOf(oldsz) - PagesOf(newsz) else 0
      ensures out == Ok && |was| == 0 ==> tables == old(tables)
      ensures out == Ok ==> forall w: nat | w < LEAVES ::
                Leaf(r, w) == if newsz <= w * PGSIZE < oldsz then 0 else old(Leaf(r, w))
      ensures out == Ok ==> forall a: nat | a < newsz && old(Backed(tables, g, r, a)) :: Backed(tables, g, r, a)
      ensures kmem.busy == old(kmem.busy) - FrameSet(was) && SameData(old(data), data, FrameSet(was))
    {
      hide Inv, Flat, TablesBusy, AllLeaf, Freeable, SameData, UnmappedTo, Span, Backed;
      out, was := Ok, [];
      NothingUnmapped(tables, g, r, 0, data);
      if newsz >= oldsz {
        LeavesKept(tables, tables, g, r, 0);
        return Ok, oldsz, was;
      }
      var lo, hi := PagesOf(newsz), PagesOf(oldsz);
      NothingUnmapped(tables, g, r, lo, data);
      if lo < hi {
        SpanIs(lo, hi - lo);
        out, was := Uvmunmap(r, lo * PGSIZE, hi - lo, true);
      }
      if out == Ok {
        UnmappedBytes(old(tables), tables, g, r, oldsz, newsz, was);
      }
      return out, newsz, was;
    }

    /** uvmalloc: the new size, or 0 when memory runs out. */
    method Uvmalloc(r: Frame, oldsz: Addr, newsz: Addr) returns (ok: bool, res: Addr, ghost es: seq<Pte>)
      requires Valid() && r in g.trees && newsz <= MAXVA
      requires oldsz <= newsz ==> NoneValid(tables, g, r, PagesOf(oldsz), PagesOf(newsz) - PagesOf(oldsz))
      modifies this`tables, this`data, this`g, kmem
      ensures Valid() && DataKept(old(data), data, old(kmem.busy))
      ensures res == if !ok then 0 else if newsz < oldsz then oldsz else newsz
      ensures newsz < oldsz ==> ok && es == [] && tables == old(tables) && Others() == old(Others())
      ensures ok && oldsz <= newsz ==>
                && |es| == PagesOf(newsz) - PagesOf(oldsz) && ZeroUser(data, es)
                && Grown(old(tables), old(g), old(Now()), tables, g, Now(), r, PagesOf(oldsz), es)
      ensures !ok ==> SameLeaves(old(tables), old(g), tables, g) && Others() == old(Others())
      ensures ok && oldsz <= newsz && old(forall a: nat | a < oldsz :: Backed(tables, g, r, a)) ==>
                forall a: nat | a < newsz :: Backed(tables, g, r, a)
      ensures ok && oldsz <= newsz ==> forall w: nat | w < LEAVES ::
                if oldsz <= w * PGSIZE < newsz then FlagsOf(Leaf(r, w)) == PTE_V + PTE_R + PTE_W + PTE_X + PTE_U
                else Leaf(r, w) == old(Leaf(r, w))
      ensures ok && oldsz <= newsz ==> forall a: nat | oldsz <= a / PGSIZE * PGSIZE < newsz ::
                a < MAXVA && ByteAt(tables, g, data, r, a) == 0
      ensures oldsz <= newsz ==> (ok <==> !TooFew(old(g), r, PagesOf(oldsz), PagesOf(newsz) - PagesOf(oldsz), old(|kmem.free|)))
    {
      hide Inv, FlatRange, Flat, TablesBusy, NoneValid, Grown, SameLeaves, ZeroUser, DataKept, Filled, AllLeaf, Freeable, UnmappedTo, SameFlat, FrameOf, FlagsOf, GrewBy, TooFew, Paid, Path, HasTable, Backed, ByteAt, IsLeaf;
      es, ok := [], true;
      KeptSame(data, kmem.busy);
      if newsz < oldsz {
        return true, oldsz, es;
      }
      var v0, n := PagesOf(oldsz), PagesOf(newsz) - PagesOf(oldsz);
      GrownNone(tables, g, Now(), r, v0, data);
      GrewNone(g, r, |kmem.free|, v0);
      var k := 0;
      while k < n
        invariant 0 <= k == |es| <= n && Valid() && r in g.trees
        invariant GrewBy(old(g), g, r, old(|kmem.free|), |kmem.free|, v0, k)
        invariant Grown(old(tables), old(g), old(Now()), tables, g, Now(), r, v0, es)
        invariant DataKept(old(data), data, old(kmem.busy)) && ZeroUser(data, es)
      {
        ghost var before, m, free := data, g, |kmem.free|;
        ghost var e;
        ok, e := GrowOne(r, v0, k, Filled(0), USER, old(tables), old(g), old(Now()), n, es, old(data));
        if ok {
          GrewMore(old(g), m, g, r, old(|kmem.free|), free, |kmem.free|, v0, k);
        }
        if !ok {
          RanOut(old(g), m, g, r, old(|kmem.free|), free, |kmem.free|, v0, k, n);
          UvmallocFails(r, v0, k, old(tables), old(g), old(Now()), n, es, old(data));
          return false, 0, es;
        }
        ZeroMore(before, data, es, e);
        es := es + [e];
        k := k + 1;
      }
      GrownPaths(old(tables), old(g), old(Now()), tables, g, Now(), r, v0, es);
      WasEnough(old(g), g, r, old(|kmem.free|), |kmem.free|, v0, n);
      GrownBytes(old(tables), old(g), old(Now()), tables, g, Now(), r, oldsz, newsz, es, data);
      return true, newsz, es;
    }

    /** The next page of a range that is being mapped to new frames. */
    method GrowOne(r: Frame, v0: nat, k: nat, page: Page, perm: nat, ghost was: Tables, ghost h: Plan, ghost b: Pages,
                   ghost n: nat, ghost es: seq<Pte>, ghost data0: map<Frame, Page>) returns (ok: bool, ghost e: Pte)
      requires Valid() && r in g.trees && k == |es| < n && 2 <= perm < 1024 && NoneValid(was, h, r, v0, n)
      requires Grown(was, h, b, tables, g, Now(), r, v0, es) && DataKept(data0, data, b.busy)
      modifies this`tables, this`data, this`g, kmem
      ensures Valid() && r in g.trees && DataKept(data0, data, b.busy) && DataKept(old(data), data, FrameSet(es))
      ensures Grown(was, h, b, tables, g, Now(), r, v0, if ok then es + [e] else es)
      ensures ok ==> FlagsOf(e) == WithValid(perm) && FrameOf(e) in data && data[FrameOf(e)] == page
      ensures v0 + k < LEAVES && Paid(old(g), g, r, old(|kmem.free|), |kmem.free|, Path(v0 + k), if ok then 1 else 0)
      ensures !ok ==> kmem.free == [] || (|kmem.free| == 1 && !HasTable(g, r, v0 + k))
    {
      hide Inv, FlatRange, Flat, TablesBusy, NoneValid, Grown, DataKept, SameFlat, FrameOf, FlagsOf, FrameSet, Paid, Path, HasTable;
      ghost var before, m, c, d := tables, g, Now(), data;
      GrownNext(was, h, b, tables, g, c, r, v0, n, es);
      ok, e := MapFresh(r, v0 + k, page, perm);
      KeptMore(data0, d, data, b.busy, FrameSet(es), c.busy);
      if ok {
        GrownMore(was, h, b, before, m, c, tables, g, Now(), r, v0, es, e);
      } else {
        GrownSame(was, h, b, before, m, c, tables, g, Now(), r, v0, es);
      }
    }

    /** uvmalloc when page k of the range cannot be had. */
    method UvmallocFails(r: Frame, v0: nat, k: nat, ghost was: Tables, ghost h: Plan, ghost b: Pages,
                         ghost n: nat, ghost es: seq<Pte>, ghost data0: map<Frame, Page>)
      requires Valid() && r in g.trees && k == |es| < n && NoneValid(was, h, r, v0, n)
      requires Grown(was, h, b, tables, g, Now(), r, v0, es) && DataKept(data0, data, b.busy)
      modifies this`tables, this`data, this`g, kmem
      ensures Valid() && DataKept(data0, data, b.busy)
      ensures Inv(was, h) && SameLeaves(was, h, tables, g) && Others() == b.others
    {
      hide Inv, FlatRange, Flat, TablesBusy, NoneValid, Grown, DataKept, SameLeaves, UnmappedTo, AllLeaf, Freeable;
      GrownFreeable(was, h, b, tables, g, Now(), r, v0, es);
      NoneLess(was, h, r, v0, n, k);
      PagesOfPages(v0, k);
      ghost var mid, c, d := tables, Now(), data;
      var out, res;
      ghost var gone;
      out, res, gone := Uvmdealloc(r, (v0 + k) * PGSIZE, v0 * PGSIZE);
      NothingUnmapped(mid, g, r, v0, d);
      UndoRestores(was, h, b, mid, tables, g, c, r, v0, es, gone);
      KeptApart(data0, d, data, b.busy, FrameSet(gone));
    }

    /** uvmcopy of the first sz bytes of the tree at pr, all mapped, into the tree at cr, not mapped. */
    method Uvmcopy(pr: Frame, cr: Frame, sz: Addr) returns (ok: bool, ghost es: seq<Pte>)
      requires Valid() && pr in g.trees && cr in g.trees && pr != cr && sz <= MAXVA
      requires AllLeaf(tables, g, pr, 0, PagesOf(sz)) && FramesIn(tables, g, pr, PagesOf(sz), kmem.busy)
      requires NoneValid(tables, g, cr, 0, PagesOf(sz))
      modifies this`tables, this`data, this`g, kmem
      ensures Valid() && DataKept(old(data), data, old(kmem.busy))
      ensures ok ==> |es| == PagesOf(sz) && Grown(old(tables), old(g), old(Now()), tables, g, Now(), cr, 0, es)
      ensures ok ==> Copied(old(tables), old(g), pr, old(data), data, es)
      ensures !ok ==> SameLeaves(old(tables), old(g), tables, g) && Others() == old(Others())
      ensures ok ==> forall a: nat | a < sz ::
                Backed(tables, g, cr, a) && ByteAt(tables, g, data, cr, a) == old(ByteAt(tables, g, data, pr, a))
      ensures ok ==> forall w: nat | w * PGSIZE < sz :: w < LEAVES && FlagsOf(Leaf(cr, w)) == old(FlagsOf(Leaf(pr, w)))
      ensures ok <==> !TooFew(old(g), cr, 0, PagesOf(sz), old(|kmem.free|))
    {
      hide Inv, FlatRange, Flat, TablesBusy, NoneValid, Grown, SameLeaves, DataKept, AllLeaf, FramesIn, Copied, FrameOf, FlagsOf, PageAt, GrewBy, TooFew, Paid, Path, HasTable, Backed, ByteAt;
      es, ok := [], true;
      var n, k := PagesOf(sz), 0;
      KeptSame(data, kmem.busy);
      GrownNone(tables, g, Now(), cr, 0, data);
      CopiedNone(tables, g, pr, data, data);
      GrewNone(g, cr, |kmem.free|, 0);
      while k < n
        invariant 0 <= k == |es| <= n && Valid() && cr in g.trees
        invariant GrewBy(old(g), g, cr, old(|kmem.free|), |kmem.free|, 0, k)
        invariant Grown(old(tables), old(g), old(Now()), tables, g, Now(), cr, 0, es)
        invariant DataKept(old(data), data, old(kmem.busy)) && Copied(old(tables), old(g), pr, old(data), data, es)
      {
        ParentPage(old(tables), old(g), old(Now()), tables, g, Now(), pr, cr, es, n, k);
        var pte := FindPte(pr, k);
        ghost var before, m, free := data, g, |kmem.free|;
        ghost var e;
        ok, e := GrowOne(cr, 0, k, PageAt(data, FrameOf(pte)), FlagsOf(pte), old(tables), old(g), old(Now()), n, es, old(data));
        if ok {
          GrewMore(old(g), m, g, cr, old(|kmem.free|), free, |kmem.free|, 0, k);
        }
        if !ok {
          RanOut(old(g), m, g, cr, old(|kmem.free|), free, |kmem.free|, 0, k, n);
          CopyFails(cr, k, old(tables), old(g), old(Now()), n, es, old(data));
          return false, es;
        }
        CopiedMore(old(tables), old(g), pr, old(data), before, data, es, e, old(kmem.busy));
        es := es + [e];
        k := k + 1;
      }
      GrownPaths(old(tables), old(g), old(Now()), tables, g, Now(), cr, 0, es);
      WasEnough(old(g), g, cr, old(|kmem.free|), |kmem.free|, 0, n);
      CopiedBytes(old(tables), old(g), old(Now()), tables, g, Now(), pr, cr, old(data), data, sz, es);
    }

    /** walk without allocation to a page that is mapped. */
    method FindPte(r: Frame, v: nat) returns (pte: Pte)
      requires Valid() && r in g.trees && v < LEAVES && IsLeaf(Leaf(r, v))
      modifies this`tables, this`g, kmem
      ensures Valid() && tables == old(tables) && g == old(g) && kmem.busy == old(kmem.busy) && kmem.free == old(kmem.free)
      ensures pte == Leaf(r, v)
    {
      hide Inv, TablesBusy, SameFlat, Px2, Px1, Px0, IsLeaf;
      var out, table, i := Walk(r, v * PGSIZE, false);
      if HasTable(g, r, v) {
        LeafIs(tables, g, r, v);
      } else {
        NoLeaf(tables, g, r, v);
      }
      pte := tables[table][i];
    }

    /** The part of uvmcopy from the label `err` on. */
    method CopyFails(r: Frame, k: nat, ghost was: Tables, ghost h: Plan, ghost b: Pages,
                     ghost n: nat, ghost es: seq<Pte>, ghost data0: map<Frame, Page>)
      requires Valid() && r in g.trees && k == |es| < n && NoneValid(was, h, r, 0, n)
      requires Grown(was, h, b, tables, g, Now(), r, 0, es) && DataKept(data0, data, b.busy)
      modifies this`tables, this`data, this`g, kmem
      ensures Valid() && DataKept(data0, data, b.busy)
      ensures Inv(was, h) && SameLeaves(was, h, tables, g) && Others() == b.others
    {
      hide Inv, FlatRange, Flat, TablesBusy, NoneValid, Grown, DataKept, SameLeaves, UnmappedTo, AllLeaf, Freeable, Span;
      GrownFreeable(was, h, b, tables, g, Now(), r, 0, es);
      NoneLess(was, h, r, 0, n, k);
      SpanIs(0, k);
      ghost var mid, c, d := tables, Now(), data;
      var out;
      ghost var gone;
      out, gone := Uvmunmap(r, 0, k, true);
      UndoRestores(was, h, b, mid, tables, g, c, r, 0, es, gone);
      KeptApart(data0, d, data, b.busy, FrameSet(gone));
    }

    /** freewalk: frees the table f, which is at `pos` of the tree at r, and all tables below it. */
    method Freewalk(f: Frame, ghost r: Frame, ghost pos: Pos)
      requires kmem.Valid() && TablesBusy(tables, kmem.busy)
      requires SpotsOk(g) && InBounds(pos) && At(g, f, r, pos) && Whole(tables, g, r, pos)
      modifies this`tables, kmem
      ensures kmem.Valid() && TablesBusy(tables, kmem.busy)
      ensures Cleared(old(tables), tables, g, r, pos) && BusyCleared(old(kmem.busy), kmem.busy, g, r, pos)
      decreases Rank(pos)
    {
      hide Swept, Cleared, BusySwept, BusyCleared, Whole, SpotsOk, IsValid, FrameOf, FlagsOf;
      SweptNone(tables, kmem.busy, g, r, pos, f);
      ChildWhole(tables, g, r, pos, f, 0);
      var i := 0;
      while i < ENTRIES
        invariant 0 <= i <= ENTRIES && kmem.Valid() && TablesBusy(tables, kmem.busy) && f in old(tables) && f in tables
        invariant forall k | i <= k < ENTRIES :: tables[f][k] == old(tables)[f][k]
        invariant Swept(old(tables), tables, g, r, pos, f, i) && BusySwept(old(kmem.busy), kmem.busy, g, r, pos, i)
      {
        var pte := tables[f][i];
        ChildWhole(old(tables), g, r, pos, f, i);
        if IsValid(pte) && FlagsOf(pte) / 2 % 8 == 0 {
          SweptChild(old(tables), tables, g, r, pos, f, i);
          FreeChild(f, i, FrameOf(pte), r, pos, old(tables), old(kmem.busy));
        } else {
          assert !IsValid(pte);
          SweptSkip(old(tables), tables, g, r, pos, f, i, old(kmem.busy), kmem.busy);
        }
        i := i + 1;
      }
      SweptAll(old(tables), tables, g, r, pos, f, old(kmem.busy), kmem.busy);
      kmem.Kfree(f);
      tables := tables - {f};
    }

    /** The branch of freewalk for an entry that points to a lower table. */
    method FreeChild(f: Frame, i: nat, child: Frame, ghost r: Frame, ghost pos: Pos, ghost was: Tables, ghost busy: set<nat>)
      requires kmem.Valid() && TablesBusy(tables, kmem.busy) && f in tables && i < ENTRIES
      requires SpotsOk(g) && At(g, f, r, pos) && !pos.Low? && InBounds(pos)
      requires At(g, child, r, Child(pos, i)) && Whole(tables, g, r, Child(pos, i))
      requires Swept(was, tables, g, r, pos, f, i) && BusySwept(busy, kmem.busy, g, r, pos, i)
      modifies this`tables, kmem
      ensures kmem.Valid() && TablesBusy(tables, kmem.busy) && f in tables
      ensures forall k | i < k < ENTRIES :: tables[f][k] == old(tables)[f][k]
      ensures Swept(was, tables, g, r, pos, f, i + 1) && BusySwept(busy, kmem.busy, g, r, pos, i + 1)
      decreases Rank(pos), 0
    {
      hide Cleared, BusySwept, BusyCleared, Whole, SpotsOk;
      ghost var mid, b := tables, kmem.busy;
      Freewalk(child, r, Child(pos, i));
      SweptMore(was, mid, tables, g, r, pos, f, i, busy, b, kmem.busy);
      tables := tables[f := tables[f][i := 0]];
    }

    /** uvmcreate: an empty page table, or NULL. */
    method Uvmcreate() returns (r: int)
      requires Valid()
      modifies this`tables, this`g, kmem
      ensures Valid() && Others() == old(Others())
      ensures r == NULL <==> old(kmem.free) == []
      ensures r == NULL ==> tables == old(tables) && g == old(g) && kmem.busy == old(kmem.busy)
      ensures r != NULL ==> r >= 0 && g == WithTree(old(g), r) && r !in old(g).trees && kmem.busy == old(kmem.busy) + {r}
      ensures r != NULL ==> forall v: nat | v < LEAVES :: Leaf(r, v) == 0
      ensures forall q, v: nat | q in old(g).trees && v < LEAVES :: q in g.trees && Leaf(q, v) == Flat(old(tables), old(g), q, v)
    {
      hide Inv, Flat;
      r := kmem.Kalloc();
      if r != NULL {
        NewTreeKeeps(tables, g, r, tables[r := ZeroTable()], WithTree(g, r));
        tables := tables[r := ZeroTable()];
        g := WithTree(g, r);
      }
    }

    /** uvmfree of a tree whose only leaves are those of the first sz bytes. */
    method Uvmfree(r: Frame, sz: Addr) returns (ghost was: seq<Pte>)
      requires Valid() && r in g.trees && sz <= MAXVA && OnlyFirst(tables, g, r, PagesOf(sz))
      requires Freeable(tables, g, Others(), r, 0, PagesOf(sz))
      modifies this`tables, this`data, this`g, kmem
      ensures Valid() && g == WithoutTree(old(g), r)
      ensures |was| == PagesOf(sz) && forall w: nat | w < |was| :: Flat(old(tables), old(g), r, w) == was[w]
      ensures forall f :: f in kmem.busy <==> f in old(kmem.busy) && f !in FrameSet(was) && !Under(old(g), r, Root, f)
      ensures forall q, v: nat | q in g.trees && v < LEAVES :: q in old(g).trees && Leaf(q, v) == Flat(old(tables), old(g), q, v)
    {
      hide Inv, Flat, TablesBusy, Freeable, AllLeaf, Span, UnmappedTo, SameData, OnlyFirst, Whole, Cleared, IsValid;
      was := [];
      var n := PagesOf(sz);
      NothingUnmapped(tables, g, r, 0, data);
      OnlyFirstLeaf(tables, g, r, n);
      if sz > 0 {
        SpanIs(0, n);
        var out;
        out, was := Uvmunmap(r, 0, n, true);
      }
      ghost var mid := tables;
      NoneLeft(old(tables), tables, g, r, n, was);
      TreeWhole(tables, g, r);
      SpotsFine(tables, g);
      RootHere(tables, g, r);
      Freewalk(r, r, Root);
      ClearedKeeps(mid, tables, g, r);
      g := WithoutTree(g, r);
    }
  }

  /** The entries that mappages stores: one page after the other from pa on. */
  ghost predicate Consecutive(es: seq<Pte>, pa: Addr, perm: nat) {
    perm < 1024 && forall k: nat | k < |es| :: es[k] == Entry(PageAfter(pa, k), WithValid(perm))
  }

  lemma NoEntries(pa: Addr, perm: nat)
    requires perm < 1024
    ensures Consecutive([], pa, perm)
  {
  }

  lemma OneEntry(es: seq<Pte>, pa: Addr, perm: nat, p: Addr)
    requires Consecutive(es, pa, perm) && p == (pa + |es| * PGSIZE) % WORD
    ensures Consecutive(es + [Entry(p / PGSIZE, WithValid(perm))], pa, perm)
  {
    hide Entry;
  }

  /** Without wrap-around the frames follow each other, and the flags are those asked for. */
  lemma FramesFollow(es: seq<Pte>, pa: Addr, perm: nat)
    requires Consecutive(es, pa, perm)
    ensures pa + |es| * PGSIZE <= WORD ==> forall k: nat | k < |es| :: FrameOf(es[k]) == pa / PGSIZE + k && FlagsOf(es[k]) / 2 == perm / 2
  {
    hide FrameOf, FlagsOf, Entry;
    if pa + |es| * PGSIZE <= WORD {
      forall k: nat | k < |es| ensures FrameOf(es[k]) == pa / PGSIZE + k {
        FrameFollows(pa, k);
      }
    }
  }

  lemma FrameFollows(pa: Addr, k: nat)
    requires pa + k * PGSIZE < WORD
    ensures PageAfter(pa, k) == pa / PGSIZE + k
  {
  }

  // ------------------------------------------------------------------ pages needed

  /** The places below the root of a tree that have a table. */
  ghost function Held(t: Tree): (r: set<Pos>) {
    (set i | i in t.mid :: Mid(i)) + (set ij | ij in t.low :: Low(ij.0, ij.1))
  }

  /** The places of the tables on the way to page v. */
  ghost function Path(v: nat): (r: set<Pos>)
    requires v < LEAVES
  {
    {Mid(Px2(v)), Low(Px2(v), Px1(v))}
  }

  ghost function Paths(v0: nat, n: nat): (r: set<Pos>)
    requires v0 + n <= LEAVES
  {
    if n == 0 then {} else Paths(v0, n - 1) + Path(v0 + n - 1)
  }

  /** From g to h the tree at r got tables at some of these places only, and as many free pages are
      gone as there are new tables and frames. */
  ghost predicate Paid(g: Plan, h: Plan, r: Frame, free: nat, left: nat, places: set<Pos>, frames: nat) {
    && r in g.trees && r in h.trees
    && Held(g.trees[r]) <= Held(h.trees[r]) <= Held(g.trees[r]) + places
    && left + frames + |Held(h.trees[r])| == free + |Held(g.trees[r])|
  }

  ghost predicate PaidRange(g: Plan, h: Plan, r: Frame, free: nat, left: nat, v0: nat, n: nat) {
    v0 + n <= LEAVES && Paid(g, h, r, free, left, Paths(v0, n), 0)
  }

  /** n pages of a range, with their frames, were mapped. */
  ghost predicate GrewBy(g: Plan, h: Plan, r: Frame, free: nat, left: nat, v0: nat, n: nat) {
    v0 + n <= LEAVES && Paid(g, h, r, free, left, Paths(v0, n), n)
  }

  /** Fewer pages are free than n frames and the tables that the range lacks. */
  ghost predicate TooFew(g: Plan, r: Frame, v0: nat, n: nat, free: nat) {
    r in g.trees && v0 + n <= LEAVES && free < n + |Paths(v0, n) - Held(g.trees[r])|
  }

  lemma PaidNone(g: Plan, r: Frame, free: nat, places: set<Pos>)
    requires r in g.trees
    ensures Paid(g, g, r, free, free, places, 0)
  {
  }

  lemma PaidStart(g: Plan, r: Frame, free: nat, v0: nat)
    requires r in g.trees && v0 <= LEAVES
    ensures PaidRange(g, g, r, free, free, v0, 0)
  {
  }

  lemma GrewNone(g: Plan, r: Frame, free: nat, v0: nat)
    requires r in g.trees && v0 <= LEAVES
    ensures GrewBy(g, g, r, free, free, v0, 0)
  {
  }

  lemma PaidMid(g: Plan, r: Frame, v: nat, f: Frame, free: nat)
    requires r in g.trees && v < LEAVES && Px2(v) !in g.trees[r].mid && free > 0
    ensures Paid(g, MidPlan(g, r, Px2(v), f), r, free, free - 1, Path(v), 0)
  {
    hide Px2, Px1;
    var h := MidPlan(g, r, Px2(v), f);
    assert Held(h.trees[r]) == Held(g.trees[r]) + {Mid(Px2(v))};
  }

  lemma PaidLow(g: Plan, r: Frame, v: nat, f: Frame, free: nat)
    requires r in g.trees && v < LEAVES && (Px2(v), Px1(v)) !in g.trees[r].low && free > 0
    ensures Paid(g, LowPlan(g, r, Px2(v), Px1(v), f), r, free, free - 1, Path(v), 0)
  {
    hide Px2, Px1;
    var h, ij := LowPlan(g, r, Px2(v), Px1(v), f), (Px2(v), Px1(v));
    assert ij in h.trees[r].low;
    assert Held(h.trees[r]) == Held(g.trees[r]) + {Low(ij.0, ij.1)};
  }

  lemma PaidBoth(g: Plan, m: Plan, h: Plan, r: Frame, free: nat, mid: nat, left: nat, a: set<Pos>, b: set<Pos>, x: nat, y: nat)
    requires Paid(g, m, r, free, mid, a, x) && Paid(m, h, r, mid, left, b, y)
    ensures Paid(g, h, r, free, left, a + b, x + y)
  {
    hide Held;
  }

  lemma PaidNext(g: Plan, m: Plan, h: Plan, r: Frame, free: nat, mid: nat, left: nat, v0: nat, n: nat)
    requires PaidRange(g, m, r, free, mid, v0, n) && v0 + n < LEAVES && Paid(m, h, r, mid, left, Path(v0 + n), 0)
    ensures PaidRange(g, h, r, free, left, v0, n + 1)
  {
    hide Held, Path, Paid;
    PaidBoth(g, m, h, r, free, mid, left, Paths(v0, n), Path(v0 + n), 0, 0);
  }

  lemma PaidOne(g: Plan, h: Plan, r: Frame, free: nat, left: nat, v: nat)
    requires free > 0 && PaidRange(g, h, r, free - 1, left, v, 1)
    ensures v < LEAVES && Paid(g, h, r, free, left, Path(v), 1) && Paid(g, h, r, free, left + 1, Path(v), 0)
  {
    hide Held, Path;
    assert Paths(v, 0) + Path(v) == Path(v);
  }

  lemma GrewMore(g: Plan, m: Plan, h: Plan, r: Frame, free: nat, mid: nat, left: nat, v0: nat, k: nat)
    requires GrewBy(g, m, r, free, mid, v0, k) && v0 + k < LEAVES && Paid(m, h, r, mid, left, Path(v0 + k), 1)
    ensures GrewBy(g, h, r, free, left, v0, k + 1)
  {
    hide Held, Path, Paid;
    PaidBoth(g, m, h, r, free, mid, left, Paths(v0, k), Path(v0 + k), k, 1);
  }

  /** Every page of the range was had: that took exactly the frames and the missing tables. */
  lemma WasEnough(g: Plan, h: Plan, r: Frame, free: nat, left: nat, v0: nat, n: nat)
    requires GrewBy(g, h, r, free, left, v0, n) && Paths(v0, n) <= Held(h.trees[r])
    ensures !TooFew(g, r, v0, n, free)
  {
    hide Held, Paths;
    var had, now, missing := Held(g.trees[r]), Held(h.trees[r]), Paths(v0, n) - Held(g.trees[r]);
    SizeOfNew(had, now);
    SubsetSize(missing, now - had);
  }

  /** The mapped pages have their tables. */
  lemma {:induction false} MappedPaths(tables: Tables, g: Plan, r: Frame, v0: nat, n: nat)
    requires Inv(tables, g) && r in g.trees && v0 + n <= LEAVES
    requires forall w: nat | v0 <= w < v0 + n :: IsLeaf(Flat(tables, g, r, w))
    ensures Paths(v0, n) <= Held(g.trees[r])
  {
    hide Inv, Flat, IsLeaf, Held, Path;
    if n > 0 {
      MappedPaths(tables, g, r, v0, n - 1);
      var w: nat := v0 + n - 1;
      assert IsLeaf(Flat(tables, g, r, w));
      MappedPath(tables, g, r, w);
    }
  }

  lemma MappedPath(tables: Tables, g: Plan, r: Frame, v: nat)
    requires Inv(tables, g) && r in g.trees && v < LEAVES && IsLeaf(Flat(tables, g, r, v))
    ensures Path(v) <= Held(g.trees[r])
  {
    hide Px2, Px1, Px0, Flat, RootOk, MidOk, Placed;
    assert HasTable(g, r, v) by {
      if !HasTable(g, r, v) {
        NoLeaf(tables, g, r, v);
      }
    }
    assert TreeOk(tables, g, r);
    var ij := (Px2(v), Px1(v));
    assert ij in g.trees[r].low && ij.0 in g.trees[r].mid;
  }

  lemma GrownPaths(was: Tables, h: Plan, b: Pages, tables: Tables, g: Plan, c: Pages, r: Frame, v0: nat, es: seq<Pte>)
    requires Grown(was, h, b, tables, g, c, r, v0, es)
    ensures r in g.trees && v0 + |es| <= LEAVES && Paths(v0, |es|) <= Held(g.trees[r])
  {
    hide Inv, Flat, Held, Paths;
    forall w: nat | v0 <= w < v0 + |es| ensures IsLeaf(Flat(tables, g, r, w)) {
      assert Flat(tables, g, r, w) == es[w - v0];
    }
    MappedPaths(tables, g, r, v0, |es|);
  }

  /** A page cannot be had: the range needs more pages than were free. */
  lemma RanOut(g: Plan, m: Plan, h: Plan, r: Frame, free: nat, mid: nat, left: nat, v0: nat, k: nat, n: nat)
    requires GrewBy(g, m, r, free, mid, v0, k) && k < n && v0 + n <= LEAVES
    requires Paid(m, h, r, mid, left, Path(v0 + k), 0)
    requires left == 0 || (left == 1 && !HasTable(h, r, v0 + k))
    ensures TooFew(g, r, v0, n, free)
  {
    hide Held, Px2, Px1;
    PaidBoth(g, m, h, r, free, mid, left, Paths(v0, k), Path(v0 + k), k, 0);
    PathsGrow(v0, k + 1, n);
    var had, now, missing := Held(g.trees[r]), Held(h.trees[r]), Paths(v0, n) - Held(g.trees[r]);
    assert now - had <= missing && now == had + (now - had);
    SizeOfNew(had, now);
    if left == 1 {
      LowNotHeld(h, r, v0 + k);
      assert now - had + {Low(Px2(v0 + k), Px1(v0 + k))} <= missing;
      SubsetSize(now - had + {Low(Px2(v0 + k), Px1(v0 + k))}, missing);
    } else {
      SubsetSize(now - had, missing);
    }
  }

  lemma SizeOfNew(had: set<Pos>, now: set<Pos>)
    requires had <= now
    ensures |now| == |had| + |now - had|
  {
    assert now == had + (now - had);
  }

  lemma LowNotHeld(h: Plan, r: Frame, v: nat)
    requires r in h.trees && v < LEAVES && !HasTable(h, r, v)
    ensures Low(Px2(v), Px1(v)) !in Held(h.trees[r])
  {
    hide Px2, Px1;
  }

  lemma {:induction false} PathsGrow(v0: nat, k: nat, n: nat)
    requires k <= n && v0 + n <= LEAVES
    ensures Paths(v0, k) <= Paths(v0, n)
  {
    hide Path;
    if k < n {
      PathsGrow(v0, k, n - 1);
    }
  }

  /** The first n pages are leaves and no others are mapped. */
  ghost predicate OnlyFirst(tables: Tables, g: Plan, r: Frame, n: nat)
    requires Inv(tables, g) && r in g.trees
  {
    n <= LEAVES && forall w: nat | w < LEAVES :: if w < n then IsLeaf(Flat(tables, g, r, w)) else !IsValid(Flat(tables, g, r, w))
  }

  lemma OnlyFirstLeaf(tables: Tables, g: Plan, r: Frame, n: nat)
    requires Inv(tables, g) && r in g.trees && OnlyFirst(tables, g, r, n)
    ensures AllLeaf(tables, g, r, 0, n) && n <= LEAVES
  {
  }

  lemma NoneLeft(tables: Tables, now: Tables, g: Plan, r: Frame, n: nat, was: seq<Pte>)
    requires Inv(tables, g) && Inv(now, g) && r in g.trees && OnlyFirst(tables, g, r, n)
    requires UnmappedTo(tables, now, g, r, 0, was) && |was| == n
    ensures forall v: nat | v < LEAVES :: !IsValid(Flat(now, g, r, v))
    ensures forall w: nat | w < |was| :: Flat(tables, g, r, w) == was[w]
    ensures forall q, v: nat | q in g.trees && q != r && v < LEAVES :: Flat(now, g, q, v) == Flat(tables, g, q, v)
  {
    hide Inv, Flat, IsLeaf;
  }

  /** The bytes of a frame; kalloc has filled it with 5s. */
  function PageAt(data: map<Frame, Page>, f: Frame): (p: Page) {
    if f in data then data[f] else Filled(5)
  }

  ghost predicate FramesIn(tables: Tables, g: Plan, r: Frame, n: nat, fs: set<Frame>)
    requires Inv(tables, g) && r in g.trees
  {
    forall w: nat | w < n && w < LEAVES :: FrameOf(Flat(tables, g, r, w)) in fs
  }

  /** Entry k has the flags of page k of the parent, and its frame the bytes that page had. */
  ghost predicate Copied(tables: Tables, g: Plan, pr: Frame, data: map<Frame, Page>, now: map<Frame, Page>, es: seq<Pte>)
    requires Inv(tables, g) && pr in g.trees
  {
    |es| <= LEAVES && forall k: nat | k < |es| :: IsCopy(data, now, Flat(tables, g, pr, k), es[k])
  }

  ghost predicate IsCopy(data: map<Frame, Page>, now: map<Frame, Page>, p: Pte, e: Pte) {
    FlagsOf(e) == FlagsOf(p) && PageAt(now, FrameOf(e)) == PageAt(data, FrameOf(p))
  }

  datatype Pages = Pages(busy: set<nat>, others: set<nat>)

  /** PGROUNDUP(size) / PGSIZE. */
  function PagesOf(size: Addr): (n: nat) {
    (size + PGSIZE - 1) / PGSIZE
  }

  // ------------------------------------------------------------------ what this means for bytes

  /** The page that holds byte a is mapped by a leaf. */
  ghost predicate Backed(tables: Tables, g: Plan, r: Frame, a: nat)
    requires Inv(tables, g) && r in g.trees
  {
    a / PGSIZE < LEAVES && IsLeaf(Flat(tables, g, r, a / PGSIZE))
  }

  /** The byte that a program finds at address a. */
  ghost function ByteAt(tables: Tables, g: Plan, data: map<Frame, Page>, r: Frame, a: nat): (b: Blocks.Byte)
    requires Inv(tables, g) && r in g.trees && a < MAXVA
  {
    PageAt(data, FrameOf(Flat(tables, g, r, a / PGSIZE)))[a % PGSIZE]
  }

  /** Page w holds one of the size bytes from va on. */
  ghost predicate Meets(w: nat, va: nat, size: nat) {
    exists a | va <= a < va + size :: InPage(a, w)
  }

  ghost predicate InPage(a: nat, w: nat) {
    w * PGSIZE <= a < (w + 1) * PGSIZE
  }

  /** A size takes the pages that begin below it. */
  lemma PagesBelow(size: Addr, w: nat)
    ensures w < PagesOf(size) <==> w * PGSIZE < size
  {
  }

  lemma LastPageMeets(va: Addr, size: Addr)
    requires size > 0 && va + size <= WORD
    ensures forall w: nat :: va / PGSIZE <= w < LastPage(va, size) + 1 <==> Meets(w, va, size)
  {
    forall w: nat ensures va / PGSIZE <= w < LastPage(va, size) + 1 <==> Meets(w, va, size) {
      if va / PGSIZE <= w <= LastPage(va, size) {
        assert InPage(if va < w * PGSIZE then w * PGSIZE else va, w);
      }
    }
  }

  lemma LeavesKept(tables: Tables, now: Tables, g: Plan, r: Frame, n: nat)
    requires Inv(tables, g) && Inv(now, g) && r in g.trees
    requires forall w: nat | w < LEAVES && w * PGSIZE < n :: Flat(now, g, r, w) == Flat(tables, g, r, w)
    ensures forall a: nat | a < n && Backed(tables, g, r, a) :: Backed(now, g, r, a)
  {
    hide Inv, Flat, IsLeaf;
  }

  lemma UnmappedBytes(tables: Tables, now: Tables, g: Plan, r: Frame, oldsz: Addr, newsz: Addr, was: seq<Pte>)
    requires newsz < oldsz <= MAXVA && UnmappedTo(tables, now, g, r, PagesOf(newsz), was)
    requires |was| == PagesOf(oldsz) - PagesOf(newsz)
    ensures Inv(tables, g) && Inv(now, g) && r in g.trees
    ensures forall w: nat | w < LEAVES :: Flat(now, g, r, w) == if newsz <= w * PGSIZE < oldsz then 0 else Flat(tables, g, r, w)
    ensures forall a: nat | a < newsz && Backed(tables, g, r, a) :: Backed(now, g, r, a)
  {
    hide Inv, Flat, IsLeaf, PagesOf, Backed;
    forall w: nat | w < LEAVES
      ensures Flat(now, g, r, w) == if newsz <= w * PGSIZE < oldsz then 0 else Flat(tables, g, r, w)
    {
      PagesBelow(newsz, w);
      PagesBelow(oldsz, w);
    }
    LeavesKept(tables, now, g, r, newsz);
  }

  /** A page that was not there before is new, and full of zeros. */
  lemma GrownZero(was: Tables, h: Plan, b: Pages, tables: Tables, g: Plan, c: Pages, r: Frame, oldsz: Addr, newsz: Addr, es: seq<Pte>, data: map<Frame, Page>, w: nat)
    requires oldsz <= newsz <= MAXVA && |es| == PagesOf(newsz) - PagesOf(oldsz)
    requires Grown(was, h, b, tables, g, c, r, PagesOf(oldsz), es) && ZeroUser(data, es)
    requires oldsz <= w * PGSIZE < newsz
    ensures Inv(tables, g) && r in g.trees && w < LEAVES && PageAt(data, FrameOf(Flat(tables, g, r, w))) == Filled(0)
  {
    hide Inv, Flat, IsLeaf, PagesOf, FrameOf, FlagsOf, Filled;
    PagesBelow(oldsz, w);
    PagesBelow(newsz, w);
    assert Flat(tables, g, r, w) == es[w - PagesOf(oldsz)];
  }

  lemma GrownBytes(was: Tables, h: Plan, b: Pages, tables: Tables, g: Plan, c: Pages, r: Frame, oldsz: Addr, newsz: Addr, es: seq<Pte>, data: map<Frame, Page>)
    requires oldsz <= newsz <= MAXVA && |es| == PagesOf(newsz) - PagesOf(oldsz)
    requires Grown(was, h, b, tables, g, c, r, PagesOf(oldsz), es) && ZeroUser(data, es)
    ensures Inv(was, h) && Inv(tables, g) && r in h.trees && r in g.trees
    ensures forall w: nat | w < LEAVES ::
              if oldsz <= w * PGSIZE < newsz then FlagsOf(Flat(tables, g, r, w)) == PTE_V + USER
              else Flat(tables, g, r, w) == Flat(was, h, r, w)
    ensures (forall a: nat | a < oldsz :: Backed(was, h, r, a)) ==> forall a: nat | a < newsz :: Backed(tables, g, r, a)
    ensures forall a: nat | oldsz <= a / PGSIZE * PGSIZE < newsz :: a < MAXVA && ByteAt(tables, g, data, r, a) == 0
  {
    hide Inv, Flat, IsLeaf, PagesOf, FrameOf, FlagsOf, Filled;
    forall w: nat | w < LEAVES
      ensures if oldsz <= w * PGSIZE < newsz then IsLeaf(Flat(tables, g, r, w)) && FlagsOf(Flat(tables, g, r, w)) == PTE_V + USER
              else Flat(tables, g, r, w) == Flat(was, h, r, w)
    {
      PagesBelow(oldsz, w);
      PagesBelow(newsz, w);
    }
    forall a: nat | oldsz <= a / PGSIZE * PGSIZE < newsz ensures a < MAXVA && ByteAt(tables, g, data, r, a) == 0 {
      GrownZero(was, h, b, tables, g, c, r, oldsz, newsz, es, data, a / PGSIZE);
    }
    if forall a: nat | a < oldsz :: Backed(was, h, r, a) {
      forall a: nat | a < newsz ensures Backed(tables, g, r, a) {
        if a / PGSIZE * PGSIZE < oldsz {
          assert Backed(was, h, r, a / PGSIZE * PGSIZE) && a / PGSIZE * PGSIZE / PGSIZE == a / PGSIZE;
        }
      }
    }
  }

  lemma CopiedBytes(was: Tables, h: Plan, b: Pages, tables: Tables, g: Plan, c: Pages, pr: Frame, cr: Frame,
                    data: map<Frame, Page>, now: map<Frame, Page>, sz: Addr, es: seq<Pte>)
    requires sz <= MAXVA && |es| == PagesOf(sz) && Inv(was, h) && pr in h.trees
    requires Grown(was, h, b, tables, g, c, cr, 0, es) && Copied(was, h, pr, data, now, es)
    ensures Inv(tables, g) && cr in g.trees
    ensures forall a: nat | a < sz ::
              Backed(tables, g, cr, a) && ByteAt(tables, g, now, cr, a) == ByteAt(was, h, data, pr, a)
    ensures forall w: nat | w * PGSIZE < sz :: w < LEAVES && FlagsOf(Flat(tables, g, cr, w)) == FlagsOf(Flat(was, h, pr, w))
  {
    hide Inv, Flat, IsLeaf, PagesOf, FrameOf, FlagsOf, PageAt;
    forall a: nat | a < sz
      ensures Backed(tables, g, cr, a) && ByteAt(tables, g, now, cr, a) == ByteAt(was, h, data, pr, a)
    {
      PagesBelow(sz, a / PGSIZE);
    }
    forall w: nat | w * PGSIZE < sz ensures w < LEAVES && FlagsOf(Flat(tables, g, cr, w)) == FlagsOf(Flat(was, h, pr, w)) {
      PagesBelow(sz, w);
    }
  }

  /** From v0 on the pages of r are newly mapped to distinct frames that were free. */
  ghost predicate Grown(tables: Tables, g: Plan, b: Pages, now: Tables, h: Plan, c: Pages, r: Frame, v0: nat, es: seq<Pte>) {
    && FlatRange(tables, g, now, h, r, v0, es)
    && b.others <= b.busy <= c.busy && c.others == b.others + FrameSet(es)
    && (forall k: nat | k < |es| :: IsLeaf(es[k]) && FrameOf(es[k]) !in b.busy)
    && (forall j: nat, k: nat | j < k < |es| :: FrameOf(es[j]) != FrameOf(es[k]))
  }

  /** The same valid entries in every tree. */
  ghost predicate SameLeaves(tables: Tables, g: Plan, now: Tables, h: Plan)
    requires Inv(tables, g) && Inv(now, h)
  {
    && h.trees.Keys == g.trees.Keys
    && forall r, v: nat | r in g.trees && v < LEAVES ::
         var e, f := Flat(tables, g, r, v), Flat(now, h, r, v);
         (IsValid(e) || IsValid(f)) ==> e == f
  }

  /** User pages full of zeros. */
  ghost predicate ZeroUser(data: map<Frame, Page>, es: seq<Pte>) {
    forall k: nat | k < |es| ::
      FlagsOf(es[k]) == USER + PTE_V && FrameOf(es[k]) in data && data[FrameOf(es[k])] == Filled(0)
  }

  lemma ZeroMore(data: map<Frame, Page>, now: map<Frame, Page>, es: seq<Pte>, e: Pte)
    requires ZeroUser(data, es) && DataKept(data, now, FrameSet(es))
    requires FlagsOf(e) == USER + PTE_V && FrameOf(e) in now && now[FrameOf(e)] == Filled(0)
    ensures ZeroUser(now, es + [e])
  {
  }

  lemma GrownFreeable(tables: Tables, g: Plan, b: Pages, now: Tables, h: Plan, c: Pages, r: Frame, v0: nat, es: seq<Pte>)
    requires Grown(tables, g, b, now, h, c, r, v0, es)
    ensures Inv(now, h) && r in h.trees && v0 + |es| <= LEAVES
    ensures Freeable(now, h, c.others, r, v0, |es|) && AllLeaf(now, h, r, v0, |es|)
  {
  }

  lemma SpanIs(v0: nat, n: nat)
    requires v0 + n <= LEAVES
    ensures v0 * PGSIZE + n * PGSIZE < WORD && v0 * PGSIZE <= MAXVA
    ensures Span(v0 * PGSIZE, n) == n && v0 * PGSIZE / PGSIZE == v0 && v0 * PGSIZE % PGSIZE == 0
  {
  }

  /** Unmapping what was newly mapped gives the old valid entries and the old pages in use. */
  lemma UndoRestores(was: Tables, h: Plan, b: Pages, mid: Tables, now: Tables, g: Plan, c: Pages, r: Frame, v0: nat, es: seq<Pte>, gone: seq<Pte>)
    requires Inv(was, h) && Inv(now, g) && Grown(was, h, b, mid, g, c, r, v0, es)
    requires NoneValid(was, h, r, v0, |es|) && UnmappedTo(mid, now, g, r, v0, gone) && |gone| == |es|
    ensures SameLeaves(was, h, now, g) && gone == es && c.others - FrameSet(gone) == b.others
    ensures FrameSet(gone) !! b.busy
  {
    hide Inv, Flat, FrameOf, IsLeaf;
    forall k: nat | k < |es| ensures gone[k] == es[k] {
      assert Flat(mid, g, r, v0 + k) == es[v0 + k - v0];
      assert Flat(mid, g, r, v0 + k) == gone[v0 + k - v0];
    }
    assert gone == es;
  }

  /** The page after the range is still unmapped. */
  lemma GrownNext(was: Tables, h: Plan, b: Pages, tables: Tables, g: Plan, c: Pages, r: Frame, v0: nat, n: nat, es: seq<Pte>)
    requires Grown(was, h, b, tables, g, c, r, v0, es) && NoneValid(was, h, r, v0, n) && |es| < n
    ensures v0 + |es| < LEAVES && Inv(tables, g) && r in g.trees && !IsValid(Flat(tables, g, r, v0 + |es|))
    ensures FrameSet(es) <= c.others && b.busy <= c.busy
  {
    hide Inv, Flat, FrameOf, IsLeaf, IsValid;
  }

  lemma GrownSame(was: Tables, h: Plan, b: Pages, mid: Tables, m: Plan, c: Pages, now: Tables, g: Plan, d: Pages, r: Frame, v0: nat, es: seq<Pte>)
    requires Grown(was, h, b, mid, m, c, r, v0, es) && Inv(mid, m) && Inv(now, g) && SameFlat(mid, m, now, g)
    requires d.others == c.others && c.busy <= d.busy
    ensures Grown(was, h, b, now, g, d, r, v0, es)
  {
    hide Inv, Flat, FrameOf, IsLeaf, FlatRange;
    RangeSame(was, h, mid, m, now, g, r, v0, es);
  }

  lemma GrownMore(was: Tables, h: Plan, b: Pages, mid: Tables, m: Plan, c: Pages, now: Tables, g: Plan, d: Pages, r: Frame, v0: nat, es: seq<Pte>, e: Pte)
    requires Grown(was, h, b, mid, m, c, r, v0, es) && FlatRange(mid, m, now, g, r, v0 + |es|, [e])
    requires d.others == c.others + {FrameOf(e)} && c.busy <= d.busy && FrameOf(e) !in c.busy && c.others <= c.busy
    requires FlagsOf(e) % 2 == 1 && FlagsOf(e) != PTE_V
    ensures Grown(was, h, b, now, g, d, r, v0, es + [e])
  {
    hide Inv, Flat, FrameOf, FlatRange, FrameSet;
    RangeJoin(was, h, mid, m, now, g, r, v0, es, e);
    FrameSetMore(es, e);
    assert IsLeaf(e);
  }

  lemma RangeJoin(was: Tables, h: Plan, mid: Tables, m: Plan, now: Tables, g: Plan, r: Frame, v0: nat, es: seq<Pte>, e: Pte)
    requires FlatRange(was, h, mid, m, r, v0, es) && FlatRange(mid, m, now, g, r, v0 + |es|, [e])
    ensures FlatRange(was, h, now, g, r, v0, es + [e])
  {
    hide Inv, Flat;
  }

  lemma NoneLess(tables: Tables, g: Plan, r: Frame, v0: nat, n: nat, k: nat)
    requires NoneValid(tables, g, r, v0, n) && k <= n
    ensures NoneValid(tables, g, r, v0, k) && Inv(tables, g)
  {
  }

  lemma PagesOfPages(v0: nat, k: nat)
    requires v0 + k <= LEAVES
    ensures (v0 + k) * PGSIZE <= MAXVA && PagesOf((v0 + k) * PGSIZE) == v0 + k && PagesOf(v0 * PGSIZE) == v0
    ensures v0 * PGSIZE < (v0 + k) * PGSIZE <==> k > 0
  {
  }

  lemma KeptMore(data: map<Frame, Page>, mid: map<Frame, Page>, now: map<Frame, Page>, fs: set<Frame>, more: set<Frame>, busy: set<Frame>)
    requires DataKept(data, mid, fs) && DataKept(mid, now, busy) && fs <= busy && more <= busy
    ensures DataKept(data, now, fs) && DataKept(mid, now, more)
  {
  }

  lemma KeptApart(data: map<Frame, Page>, mid: map<Frame, Page>, now: map<Frame, Page>, fs: set<Frame>, freed: set<Frame>)
    requires DataKept(data, mid, fs) && SameData(mid, now, freed) && freed !! fs
    ensures DataKept(data, now, fs)
  {
  }

  lemma GrownNone(tables: Tables, g: Plan, b: Pages, r: Frame, v0: nat, data: map<Frame, Page>)
    requires Inv(tables, g) && r in g.trees && v0 <= LEAVES && b.others <= b.busy
    ensures Grown(tables, g, b, tables, g, b, r, v0, []) && ZeroUser(data, [])
  {
    RangeStart(tables, g, r, v0);
  }

  lemma CopiedNone(tables: Tables, g: Plan, pr: Frame, data: map<Frame, Page>, now: map<Frame, Page>)
    requires Inv(tables, g) && pr in g.trees
    ensures Copied(tables, g, pr, data, now, [])
  {
  }

  /** The parent's page k is mapped as it was, to a frame that was in use. */
  lemma ParentPage(was: Tables, h: Plan, b: Pages, tables: Tables, g: Plan, c: Pages, pr: Frame, cr: Frame, es: seq<Pte>, n: nat, k: nat)
    requires Grown(was, h, b, tables, g, c, cr, 0, es) && pr in h.trees && pr != cr && Inv(was, h) && k < n
    requires AllLeaf(was, h, pr, 0, n) && FramesIn(was, h, pr, n, b.busy)
    ensures k < LEAVES && Inv(tables, g) && pr in g.trees && Flat(tables, g, pr, k) == Flat(was, h, pr, k)
    ensures IsLeaf(Flat(was, h, pr, k)) && FrameOf(Flat(was, h, pr, k)) in b.busy
    ensures var flags := FlagsOf(Flat(was, h, pr, k)); 2 <= flags < 1024 && WithValid(flags) == flags
  {
    hide Inv, Flat, FrameOf;
    assert IsLeaf(Flat(was, h, pr, k));
  }

  lemma CopiedMore(tables: Tables, g: Plan, pr: Frame, data: map<Frame, Page>, mid: map<Frame, Page>, now: map<Frame, Page>,
                   es: seq<Pte>, e: Pte, busy: set<Frame>)
    requires Inv(tables, g) && pr in g.trees && |es| < LEAVES && Copied(tables, g, pr, data, mid, es)
    requires DataKept(mid, now, FrameSet(es)) && DataKept(data, mid, busy)
    requires var p := Flat(tables, g, pr, |es|);
             && FrameOf(p) in busy && FlagsOf(e) == FlagsOf(p)
             && FrameOf(e) in now && now[FrameOf(e)] == PageAt(mid, FrameOf(p))
    ensures Copied(tables, g, pr, data, now, es + [e])
  {
    hide Inv, Flat, FrameOf, FlagsOf, Filled, FrameSet, IsCopy, DataKept;
    forall k: nat | k < |es| + 1 ensures IsCopy(data, now, Flat(tables, g, pr, k), (es + [e])[k]) {
      if k < |es| {
        InFrames(es, k);
        CopyKept(data, mid, now, Flat(tables, g, pr, k), es[k], FrameSet(es));
      } else {
        CopyMade(data, mid, now, Flat(tables, g, pr, k), e, busy);
      }
    }
  }

  lemma InFrames(es: seq<Pte>, k: nat)
    requires k < |es|
    ensures FrameOf(es[k]) in FrameSet(es)
  {
  }

  lemma CopyKept(data: map<Frame, Page>, mid: map<Frame, Page>, now: map<Frame, Page>, p: Pte, e: Pte, fs: set<Frame>)
    requires IsCopy(data, mid, p, e) && DataKept(mid, now, fs) && FrameOf(e) in fs
    ensures IsCopy(data, now, p, e)
  {
    hide Filled, FlagsOf;
  }

  lemma CopyMade(data: map<Frame, Page>, mid: map<Frame, Page>, now: map<Frame, Page>, p: Pte, e: Pte, busy: set<Frame>)
    requires DataKept(data, mid, busy) && FrameOf(p) in busy && FlagsOf(e) == FlagsOf(p)
    requires FrameOf(e) in now && now[FrameOf(e)] == PageAt(mid, FrameOf(p))
    ensures IsCopy(data, now, p, e)
  {
    hide Filled;
  }

  lemma KeptSame(data: map<Frame, Page>, fs: set<Frame>)
    ensures DataKept(data, data, fs)
  {
  }

  lemma OnePage(v: nat, f: nat)
    requires v < LEAVES && f < K.MAXPAGES
    ensures v * PGSIZE < MAXVA && f * PGSIZE < WORD && LastPage(v * PGSIZE, PGSIZE) == v
    ensures PageAfter(f * PGSIZE, 0) == f && v * PGSIZE / PGSIZE == v
  {
  }

  lemma RangeNone(tables: Tables, g: Plan, now: Tables, h: Plan, r: Frame, v: nat, es: seq<Pte>)
    requires FlatRange(tables, g, now, h, r, v, es) && es == []
    ensures Inv(tables, g) && Inv(now, h) && SameFlat(tables, g, now, h)
  {
  }

  /** The contents of these frames are as they were. */
  ghost predicate DataKept(data: map<Frame, Page>, now: map<Frame, Page>, fs: set<Frame>) {
    forall f | f in fs :: (f in now <==> f in data) && (f in data ==> now[f] == data[f])
  }

  function Filled(b: Blocks.Byte): (p: seq<Blocks.Byte>)
    ensures |p| == PGSIZE && forall x | 0 <= x < PGSIZE :: p[x] == b
  {
    seq(PGSIZE, _ => b)
  }

  /** Without a leaf table there is no leaf. */
  lemma NoLeaf(tables: Tables, g: Plan, r: Frame, v: nat)
    requires Inv(tables, g) && r in g.trees && !HasTable(g, r, v)
    ensures v < LEAVES ==> !IsLeaf(Flat(tables, g, r, v))
  {
  }

  /** How many pages the loop of uvmunmap visits: its bound is computed in 64 bits. */
  function Span(va: Addr, npages: Addr): (n: nat) {
    var end := (va + npages * PGSIZE) % WORD;
    if end > va then (end - va + PGSIZE - 1) / PGSIZE else 0
  }

  /** All n pages from v0 on are below MAXVA and mapped by leaf entries. */
  ghost predicate AllLeaf(tables: Tables, g: Plan, r: Frame, v0: nat, n: nat)
    requires Inv(tables, g) && r in g.trees
  {
    n > 0 ==> v0 + n <= LEAVES && forall w: nat | v0 <= w < v0 + n :: IsLeaf(Flat(tables, g, r, w))
  }

  predicate IsLeaf(e: Pte) {
    IsValid(e) && FlagsOf(e) != PTE_V
  }

  /** The mapped frames of a range are distinct pages in use that hold no table. */
  ghost predicate Freeable(tables: Tables, g: Plan, others: set<nat>, r: Frame, v0: nat, n: nat)
    requires Inv(tables, g) && r in g.trees
  {
    && (forall w: nat | v0 <= w < v0 + n && w < LEAVES && IsLeaf(Flat(tables, g, r, w)) :: FrameOf(Flat(tables, g, r, w)) in others)
    && (forall w: nat, x: nat | v0 <= w < x < v0 + n && x < LEAVES && IsLeaf(Flat(tables, g, r, w)) && IsLeaf(Flat(tables, g, r, x)) ::
          FrameOf(Flat(tables, g, r, w)) != FrameOf(Flat(tables, g, r, x)))
  }

  /** The flat map of r had the entries `was` from v0 on, and now has none there. */
  ghost predicate UnmappedTo(tables: Tables, now: Tables, g: Plan, r: Frame, v0: nat, was: seq<Pte>) {
    && FlatRange(tables, g, now, g, r, v0, PageTree.Zeros(|was|))
    && forall w: nat | v0 <= w < v0 + |was| :: Flat(tables, g, r, w) == was[w - v0]
  }

  lemma NothingUnmapped(tables: Tables, g: Plan, r: Frame, v0: nat, data: map<Frame, Page>)
    requires Inv(tables, g) && r in g.trees && v0 <= LEAVES
    ensures UnmappedTo(tables, tables, g, r, v0, []) && AllLeaf(tables, g, r, v0, 0)
    ensures FrameSet([]) == {} && SameData(data, data, {})
  {
  }

  lemma BeyondLeaf(tables: Tables, g: Plan, r: Frame, v0: nat, n: nat)
    requires Inv(tables, g) && r in g.trees && v0 >= LEAVES
    ensures AllLeaf(tables, g, r, v0, n) <==> n == 0
  {
  }

  /** What uvmunmap finds at its next page is what was there, and may be freed. */
  lemma LeafStep(tables: Tables, now: Tables, g: Plan, others: set<nat>, r: Frame, v0: nat, was: seq<Pte>, n: nat, v: nat, doFree: bool)
    requires UnmappedTo(tables, now, g, r, v0, was) && |was| < n && v == v0 + |was| && Inv(tables, g) && r in g.trees
    requires AllLeaf(tables, g, r, v0, |was|) && (doFree ==> Freeable(tables, g, others, r, v0, n))
    ensures v <= LEAVES && Inv(now, g)
    ensures v < LEAVES ==> Flat(now, g, r, v) == Flat(tables, g, r, v)
    ensures v < LEAVES && IsLeaf(Flat(tables, g, r, v)) ==> AllLeaf(tables, g, r, v0, |was| + 1)
    ensures !(v < LEAVES && IsLeaf(Flat(tables, g, r, v))) ==> !AllLeaf(tables, g, r, v0, n)
    ensures doFree && v < LEAVES && IsLeaf(Flat(tables, g, r, v)) ==> FrameOf(Flat(tables, g, r, v)) in others - FrameSet(was)
  {
    hide Inv, Flat, FrameOf, IsLeaf, FrameSet, Freeable, AllLeaf;
    LeafMore(tables, g, r, v0, |was|, n);
    if doFree && v < LEAVES && IsLeaf(Flat(tables, g, r, v)) {
      StillFreeable(tables, now, g, others, r, v0, was, n, v);
    }
  }

  lemma LeafMore(tables: Tables, g: Plan, r: Frame, v0: nat, k: nat, n: nat)
    requires Inv(tables, g) && r in g.trees && k < n && AllLeaf(tables, g, r, v0, k) && v0 + k <= LEAVES
    ensures v0 + k < LEAVES && IsLeaf(Flat(tables, g, r, v0 + k)) ==> AllLeaf(tables, g, r, v0, k + 1)
    ensures !(v0 + k < LEAVES && IsLeaf(Flat(tables, g, r, v0 + k))) ==> !AllLeaf(tables, g, r, v0, n)
  {
    hide Inv, Flat, IsLeaf;
  }

  lemma StillFreeable(tables: Tables, now: Tables, g: Plan, others: set<nat>, r: Frame, v0: nat, was: seq<Pte>, n: nat, v: nat)
    requires UnmappedTo(tables, now, g, r, v0, was) && |was| < n && v == v0 + |was| < LEAVES && Inv(tables, g) && r in g.trees
    requires AllLeaf(tables, g, r, v0, |was|) && Freeable(tables, g, others, r, v0, n) && IsLeaf(Flat(tables, g, r, v))
    ensures FrameOf(Flat(tables, g, r, v)) in others - FrameSet(was)
  {
    hide Inv, Flat, FrameOf, IsLeaf, FrameSet, FlatRange;
    var f := FrameOf(Flat(tables, g, r, v));
    forall k: nat | k < |was| ensures FrameOf(was[k]) != f {
      assert Flat(tables, g, r, v0 + k) == was[(v0 + k) - v0];
    }
  }

  lemma UnmappedMore(tables: Tables, mid: Tables, now: Tables, g: Plan, r: Frame, v0: nat, was: seq<Pte>, e: Pte)
    requires UnmappedTo(tables, mid, g, r, v0, was) && v0 + |was| < LEAVES && Inv(now, g) && Inv(tables, g) && r in g.trees
    requires e == Flat(tables, g, r, v0 + |was|) && FlatSet(mid, g, now, r, v0 + |was|, 0)
    ensures UnmappedTo(tables, now, g, r, v0, was + [e])
  {
    hide Inv, Flat, FlatRange, FlatSet;
    RangeGrows(tables, g, mid, now, g, r, v0, PageTree.Zeros(|was|), 0);
    assert PageTree.Zeros(|was| + 1) == PageTree.Zeros(|was|) + [0];
  }

  lemma FrameSetMore(was: seq<Pte>, e: Pte)
    ensures FrameSet(was + [e]) == FrameSet(was) + {FrameOf(e)}
  {
  }

  lemma SameDataMore(data: map<Frame, Page>, mid: map<Frame, Page>, now: map<Frame, Page>, fs: set<Frame>, f: Frame)
    requires SameData(data, mid, fs) && SameData(mid, now, {f})
    ensures SameData(data, now, fs + {f})
  {
  }

  /** The freed frames have been filled with junk, and all others are as they were. */
  ghost predicate SameData(data: map<Frame, Page>, now: map<Frame, Page>, freed: set<Frame>) {
    && (forall f | f !in freed :: (f in now <==> f in data) && (f in data ==> now[f] == data[f]))
    && (forall f | f in freed :: f in now && now[f] == Filled(1))
  }

  /** The entry that walk finds is the one of the flat map. */
  lemma LeafIs(tables: Tables, g: Plan, r: Frame, v: nat)
    requires Inv(tables, g) && HasTable(g, r, v)
    ensures LeafTable(g, r, v) in tables && tables[LeafTable(g, r, v)][Px0(v)] == Flat(tables, g, r, v)
  {
    hide Px2, Px1, Px0;
    LowTable(tables, g, r, v);
  }

  /** An entry outside a range is as it was. */
  lemma RangeNext(was: Tables, h: Plan, tables: Tables, g: Plan, r: Frame, v0: nat, es: seq<Pte>, w: nat)
    requires FlatRange(was, h, tables, g, r, v0, es) && v0 + |es| <= w < LEAVES
    ensures Inv(was, h) && r in h.trees && Inv(tables, g) && r in g.trees
    ensures Flat(tables, g, r, w) == Flat(was, h, r, w)
  {
  }

  ghost predicate NoneValid(tables: Tables, g: Plan, r: Frame, v0: nat, n: nat) {
    && Inv(tables, g) && r in g.trees && v0 + n <= LEAVES
    && forall w: nat | v0 <= w < v0 + n :: !IsValid(Flat(tables, g, r, w))
  }

  lemma NoneYet(tables: Tables, g: Plan, r: Frame, v0: nat)
    requires Inv(tables, g) && r in g.trees && v0 <= LEAVES
    ensures NoneValid(tables, g, r, v0, 0)
  {
  }

  lemma NoneMore(tables: Tables, g: Plan, r: Frame, v0: nat, n: nat)
    requires NoneValid(tables, g, r, v0, n) && v0 + n < LEAVES && !IsValid(Flat(tables, g, r, v0 + n))
    ensures NoneValid(tables, g, r, v0, n + 1)
  {
    hide Inv, Flat;
  }

  function PageAfter(pa: Addr, k: nat): (f: Frame) {
    (pa + k * PGSIZE) % WORD / PGSIZE
  }

  /** perm | PTE_V. */
  function WithValid(perm: nat): (flags: nat)
    requires perm < 1024
    ensures flags < 1024 && flags % 2 == 1 && flags / 2 == perm / 2
  {
    if perm % 2 == 1 then perm else perm + 1
  }

  /** The page that the last byte is in, with the sum in 64 bits. */
  function LastPage(va: Addr, size: Addr): (v: nat)
    requires size > 0
  {
    (va + size - 1) % WORD / PGSIZE
  }

  ghost predicate HasTable(g: Plan, r: Frame, v: nat) {
    r in g.trees && v < LEAVES && (Px2(v), Px1(v)) in g.trees[r].low
  }

  ghost function LeafTable(g: Plan, r: Frame, v: nat): (f: Frame)
    requires HasTable(g, r, v)
  {
    g.trees[r].low[(Px2(v), Px1(v))]
  }

  /** The table at this level on the way to page v. */
  ghost predicate Reached(g: Plan, r: Frame, v: nat, level: nat, table: Frame) {
    && r in g.trees && v < LEAVES
    && (level == 2 ==> table == r)
    && (level == 1 ==> Px2(v) in g.trees[r].mid && table == g.trees[r].mid[Px2(v)])
    && (level == 0 ==> HasTable(g, r, v) && table == LeafTable(g, r, v))
  }

  /** The entry there is valid exactly when there is a next table, and then it points to it. */
  lemma ReachedEntry(tables: Tables, g: Plan, r: Frame, v: nat, level: nat, table: Frame)
    requires Inv(tables, g) && 1 <= level <= 2 && Reached(g, r, v, level, table)
    ensures table in tables
    ensures level == 2 ==> (IsValid(tables[table][Px2(v)]) <==> Px2(v) in g.trees[r].mid)
    ensures level == 1 ==> (IsValid(tables[table][Px1(v)]) <==> HasTable(g, r, v))
    ensures var e := tables[table][if level == 2 then Px2(v) else Px1(v)];
            IsValid(e) ==> Reached(g, r, v, level - 1, FrameOf(e))
    ensures HasTable(g, r, v) ==> Px2(v) in g.trees[r].mid
  {
    hide Px2, Px1, Entry, IsValid, FrameOf, FlagsOf, SpotOk;
    assert TreeOk(tables, g, r) && RootOk(tables, g, r, Px2(v));
    if level == 1 {
      assert MidOk(tables, g, r, Px2(v), Px1(v));
    }
  }

  lemma SameTwice(tables: Tables, g: Plan, mid: Tables, m: Plan, now: Tables, h: Plan)
    requires Inv(tables, g) && Inv(mid, m) && Inv(now, h) && SameFlat(tables, g, mid, m) && SameFlat(mid, m, now, h)
    ensures SameFlat(tables, g, now, h)
  {
  }

  lemma InvSame(tables: Tables, g: Plan, r: Frame)
    requires Inv(tables, g) && r in g.trees
    ensures SameFlat(tables, g, tables, g) && r in tables && tables.Keys == g.place.Keys
  {
  }
}
