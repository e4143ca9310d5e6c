/** Sv39 page tables (section 4.4 of the RISC-V Instruction Set Manual Volume II, Privileged
    Architecture) as kernel/vm.c builds them: trees of table pages in memory, and the flat map from
    page number to leaf entry that a tree stands for. Frames are physical page numbers. */
module PageTree {
  const ENTRIES := 512
  const LEAVES := 0x400_0000 // pages below MAXVA
  const ROOT_ENTRIES := 256 // root entries for them: MAXVA is half of what Sv39 allows
  const PTE_V := 1

  type Frame = nat
  type Pte = nat

  /** PA2PTE(pa) with these flag bits, and its parts. */
  function Entry(f: Frame, flags: nat): (e: Pte)
    requires flags < 1024
    ensures FrameOf(e) == f && FlagsOf(e) == flags && (IsValid(e) <==> flags % 2 == 1)
  {
    f * 1024 + flags
  }

  function FrameOf(e: Pte): (f: Frame) {
    e / 1024
  }

  function FlagsOf(e: Pte): (flags: nat)
    ensures flags < 1024
  {
    e % 1024
  }

  predicate IsValid(e: Pte) {
    e % 2 == 1
  }

  /** PX(level, va) of the page with number v. */
  function Px2(v: nat): (i: nat)
    requires v < LEAVES
    ensures i < ROOT_ENTRIES
  {
    v / 0x4_0000
  }

  function Px1(v: nat): (i: nat)
    ensures i < ENTRIES
  {
    v / ENTRIES % ENTRIES
  }

  function Px0(v: nat): (i: nat)
    ensures i < ENTRIES
  {
    v % ENTRIES
  }

  /** The three indices determine the page. */
  lemma SplitInjective(v: nat, w: nat)
    requires v < LEAVES && w < LEAVES && Px2(v) == Px2(w) && Px1(v) == Px1(w) && Px0(v) == Px0(w)
    ensures v == w
  {
    assert v == Px2(v) * 0x4_0000 + Px1(v) * ENTRIES + Px0(v);
    assert w == Px2(w) * 0x4_0000 + Px1(w) * ENTRIES + Px0(w);
  }

  /** Every triple of indices, with the first in the lower half, is that of a page. */
  lemma SplitOnto(i: nat, j: nat, k: nat) returns (v: nat)
    requires i < ROOT_ENTRIES && j < ENTRIES && k < ENTRIES
    ensures v < LEAVES && Px2(v) == i && Px1(v) == j && Px0(v) == k
  {
    v := i * 0x4_0000 + j * ENTRIES + k;
    assert v / ENTRIES == i * ENTRIES + j;
  }

  /** A table's place in its tree. */
  datatype Pos = Root | Mid(i: nat) | Low(i: nat, j: nat)
  datatype Spot = Spot(root: Frame, pos: Pos)

  /** The tables below the root of one tree. */
  datatype Tree = Tree(mid: map<nat, Frame>, low: map<(nat, nat), Frame>)

  /** All trees, and the place of every table page. */
  datatype Plan = Plan(trees: map<Frame, Tree>, place: map<Frame, Spot>)

  type Table = t: seq<Pte> | |t| == ENTRIES witness ZeroTable()
  type Tables = map<Frame, Table>

  function ZeroTable(): (t: seq<Pte>)
    ensures |t| == ENTRIES && forall i | 0 <= i < ENTRIES :: t[i] == 0
  {
    Zeros(ENTRIES)
  }

  function Zeros(n: nat): (t: seq<Pte>)
    ensures |t| == n && forall i | 0 <= i < n :: t[i] == 0
  {
    if n == 0 then [] else Zeros(n - 1) + [0]
  }

  function TableAt(r: Frame, t: Tree, pos: Pos): (f: int) {
    match pos
    case Root => r
    case Mid(i) => if i in t.mid then t.mid[i] else -1
    case Low(i, j) => if (i, j) in t.low then t.low[(i, j)] else -1
  }

  ghost predicate At(g: Plan, f: Frame, r: Frame, pos: Pos) {
    f in g.place && g.place[f] == Spot(r, pos)
  }

  ghost predicate RootOk(tables: Tables, g: Plan, r: Frame, i: nat) {
    && r in tables && r in g.trees && i < ENTRIES
    && var mid := g.trees[r].mid;
       if i in mid then tables[r][i] == Entry(mid[i], PTE_V) && At(g, mid[i], r, Mid(i)) else !IsValid(tables[r][i])
  }

  ghost predicate MidOk(tables: Tables, g: Plan, r: Frame, i: nat, j: nat) {
    && r in g.trees && i in g.trees[r].mid && g.trees[r].mid[i] in tables && j < ENTRIES
    && var t := g.trees[r];
       var e := tables[t.mid[i]][j];
       if (i, j) in t.low then e == Entry(t.low[(i, j)], PTE_V) && At(g, t.low[(i, j)], r, Low(i, j)) else !IsValid(e)
  }

  ghost predicate TreeOk(tables: Tables, g: Plan, r: Frame) {
    && r in g.trees && At(g, r, r, Root)
    && (forall i: nat | i < ENTRIES :: RootOk(tables, g, r, i))
    && (forall i: nat | i in g.trees[r].mid :: i < ROOT_ENTRIES)
    && (forall i: nat, j: nat | i in g.trees[r].mid && j < ENTRIES :: MidOk(tables, g, r, i, j))
    && (forall i: nat, j: nat | (i, j) in g.trees[r].low :: i in g.trees[r].mid && j < ENTRIES)
  }

  /** Every table page is at exactly one place of one tree. */
  ghost predicate Placed(tables: Tables, g: Plan) {
    && tables.Keys == g.place.Keys
    && (forall f | f in g.place :: SpotOk(g, f, g.place[f]))
  }

  ghost predicate SpotOk(g: Plan, f: Frame, s: Spot) {
    s.root in g.trees && TableAt(s.root, g.trees[s.root], s.pos) == f
  }

  ghost predicate Inv(tables: Tables, g: Plan) {
    Placed(tables, g) && forall r | r in g.trees :: TreeOk(tables, g, r)
  }

  /** The flat map: the leaf entry for page v in the tree at r, 0 where there is no table for it. */
  ghost function Flat(tables: Tables, g: Plan, r: Frame, v: nat): (e: Pte)
    requires Inv(tables, g) && r in g.trees && v < LEAVES
  {
    var t := g.trees[r];
    if (Px2(v), Px1(v)) in t.low then
      assert TreeOk(tables, g, r) && MidOk(tables, g, r, Px2(v), Px1(v));
      tables[t.low[(Px2(v), Px1(v))]][Px0(v)]
    else 0
  }

  /** The same flat map for every tree. */
  ghost predicate SameFlat(tables: Tables, g: Plan, now: Tables, h: Plan)
    requires Inv(tables, g) && Inv(now, h)
  {
    && h.trees.Keys == g.trees.Keys
    && forall r, v: nat | r in g.trees && v < LEAVES :: Flat(now, h, r, v) == Flat(tables, g, r, v)
  }

  // ---- a new table page

  function WithTable(tables: Tables, parent: Frame, i: nat, f: Frame): (now: Tables)
    requires parent in tables && i < ENTRIES
  {
    tables[f := ZeroTable()][parent := tables[parent][i := Entry(f, PTE_V)]]
  }

  ghost function MidPlan(g: Plan, r: Frame, i: nat, f: Frame): (h: Plan)
    requires r in g.trees
  {
    Plan(g.trees[r := g.trees[r].(mid := g.trees[r].mid[i := f])], g.place[f := Spot(r, Mid(i))])
  }

  ghost function LowPlan(g: Plan, r: Frame, i: nat, j: nat, f: Frame): (h: Plan)
    requires r in g.trees
  {
    Plan(g.trees[r := g.trees[r].(low := g.trees[r].low[(i, j) := f])], g.place[f := Spot(r, Low(i, j))])
  }

  ghost predicate CanAddMid(tables: Tables, g: Plan, r: Frame, i: nat, f: Frame) {
    && Inv(tables, g) && f !in tables && r in g.trees && i < ROOT_ENTRIES && i !in g.trees[r].mid
    && r in tables
  }

  ghost predicate CanAddLow(tables: Tables, g: Plan, r: Frame, i: nat, j: nat, f: Frame) {
    && Inv(tables, g) && f !in tables && r in g.trees && j < ENTRIES && i in g.trees[r].mid
    && (i, j) !in g.trees[r].low && g.trees[r].mid[i] in tables
  }

  /** The tables of tree q are where and what they were. */
  ghost predicate Untouched(tables: Tables, g: Plan, now: Tables, h: Plan, q: Frame) {
    && q in g.trees && q in h.trees && h.trees[q] == g.trees[q]
    && forall f | f in g.place && f in tables && g.place[f].root == q ::
         f in h.place && h.place[f] == g.place[f] && f in now && now[f] == tables[f]
  }

  lemma OtherTree(tables: Tables, g: Plan, now: Tables, h: Plan, q: Frame)
    requires Inv(tables, g) && Placed(now, h) && Untouched(tables, g, now, h, q)
    ensures TreeOk(now, h, q)
  {
    assert TreeOk(tables, g, q);
    forall k: nat | k < ENTRIES ensures RootOk(now, h, q, k) {
      assert RootOk(tables, g, q, k);
    }
    forall k: nat, j: nat | k in g.trees[q].mid && j < ENTRIES ensures MidOk(now, h, q, k, j) {
      assert MidOk(tables, g, q, k, j) && RootOk(tables, g, q, k);
    }
  }

  lemma OtherFlat(tables: Tables, g: Plan, now: Tables, h: Plan, q: Frame, v: nat)
    requires Inv(tables, g) && Inv(now, h) && Untouched(tables, g, now, h, q) && v < LEAVES
    ensures Flat(now, h, q, v) == Flat(tables, g, q, v)
  {
    hide Px2, Px1, Px0;
    assert TreeOk(tables, g, q);
    var i, j := Px2(v), Px1(v);
    assert (i, j) in g.trees[q].low ==> i in g.trees[q].mid && MidOk(tables, g, q, i, j);
  }

  lemma AddMidKeeps(tables: Tables, g: Plan, r: Frame, i: nat, f: Frame)
    requires CanAddMid(tables, g, r, i, f)
    ensures Inv(WithTable(tables, r, i, f), MidPlan(g, r, i, f))
  {
    hide TreeOk;
    var now, h := WithTable(tables, r, i, f), MidPlan(g, r, i, f);
    AddMidTree(tables, g, r, i, f);
    RootHere(tables, g, r);
    forall q | q in h.trees && q != r ensures TreeOk(now, h, q) {
      OtherTree(tables, g, now, h, q);
    }
  }

  lemma RootHere(tables: Tables, g: Plan, r: Frame)
    requires Inv(tables, g) && r in g.trees
    ensures At(g, r, r, Root)
  {
    assert TreeOk(tables, g, r);
  }

  lemma AddMidPlaced(tables: Tables, g: Plan, r: Frame, i: nat, f: Frame)
    requires CanAddMid(tables, g, r, i, f)
    ensures Placed(WithTable(tables, r, i, f), MidPlan(g, r, i, f))
  {
    hide TreeOk;
  }

  lemma AddMidTree(tables: Tables, g: Plan, r: Frame, i: nat, f: Frame)
    requires CanAddMid(tables, g, r, i, f)
    ensures Placed(WithTable(tables, r, i, f), MidPlan(g, r, i, f))
    ensures TreeOk(WithTable(tables, r, i, f), MidPlan(g, r, i, f), r)
  {
    hide SpotOk, Zeros;
    AddMidPlaced(tables, g, r, i, f);
    var now, h := WithTable(tables, r, i, f), MidPlan(g, r, i, f);
    assert TreeOk(tables, g, r);
    forall k: nat | k < ENTRIES ensures RootOk(now, h, r, k) {
      assert RootOk(tables, g, r, k);
    }
    forall k: nat, j: nat | k in h.trees[r].mid && j < ENTRIES ensures MidOk(now, h, r, k, j) {
      if k != i {
        assert MidOk(tables, g, r, k, j) && RootOk(tables, g, r, k);
      }
    }
  }

  lemma AddMidFlat(tables: Tables, g: Plan, r: Frame, i: nat, f: Frame)
    requires CanAddMid(tables, g, r, i, f)
    ensures Inv(WithTable(tables, r, i, f), MidPlan(g, r, i, f))
    ensures SameFlat(tables, g, WithTable(tables, r, i, f), MidPlan(g, r, i, f))
  {
    hide TreeOk, Px2, Px1, Px0;
    AddMidKeeps(tables, g, r, i, f);
    var now, h := WithTable(tables, r, i, f), MidPlan(g, r, i, f);
    RootHere(tables, g, r);
    forall q, v: nat | q in g.trees && v < LEAVES ensures Flat(now, h, q, v) == Flat(tables, g, q, v) {
      if q == r {
        LowTable(tables, g, r, v);
      } else {
        OtherFlat(tables, g, now, h, q, v);
      }
    }
  }

  /** Where the leaf table for page v is. */
  lemma LowTable(tables: Tables, g: Plan, r: Frame, v: nat)
    requires Inv(tables, g) && r in g.trees && v < LEAVES
    ensures (Px2(v), Px1(v)) in g.trees[r].low ==>
              && Px2(v) in g.trees[r].mid
              && At(g, g.trees[r].low[(Px2(v), Px1(v))], r, Low(Px2(v), Px1(v)))
  {
    hide Px2, Px1;
    assert TreeOk(tables, g, r);
    assert (Px2(v), Px1(v)) in g.trees[r].low ==> MidOk(tables, g, r, Px2(v), Px1(v));
  }

  lemma AddLowPlaced(tables: Tables, g: Plan, r: Frame, i: nat, j: nat, f: Frame)
    requires CanAddLow(tables, g, r, i, j, f)
    ensures Placed(WithTable(tables, g.trees[r].mid[i], j, f), LowPlan(g, r, i, j, f))
  {
    hide TreeOk;
  }

  lemma AddLowTree(tables: Tables, g: Plan, r: Frame, i: nat, j: nat, f: Frame)
    requires CanAddLow(tables, g, r, i, j, f)
    ensures Placed(WithTable(tables, g.trees[r].mid[i], j, f), LowPlan(g, r, i, j, f))
    ensures TreeOk(WithTable(tables, g.trees[r].mid[i], j, f), LowPlan(g, r, i, j, f), r)
  {
    hide SpotOk, Zeros;
    AddLowPlaced(tables, g, r, i, j, f);
    var now, h := WithTable(tables, g.trees[r].mid[i], j, f), LowPlan(g, r, i, j, f);
    assert TreeOk(tables, g, r) && RootOk(tables, g, r, i);
    forall k: nat | k < ENTRIES ensures RootOk(now, h, r, k) {
      assert RootOk(tables, g, r, k);
    }
    forall k: nat, m: nat | k in h.trees[r].mid && m < ENTRIES ensures MidOk(now, h, r, k, m) {
      assert MidOk(tables, g, r, k, m) && RootOk(tables, g, r, k);
    }
  }

  lemma AddLowKeeps(tables: Tables, g: Plan, r: Frame, i: nat, j: nat, f: Frame)
    requires CanAddLow(tables, g, r, i, j, f)
    ensures Inv(WithTable(tables, g.trees[r].mid[i], j, f), LowPlan(g, r, i, j, f))
  {
    hide TreeOk;
    var now, h := WithTable(tables, g.trees[r].mid[i], j, f), LowPlan(g, r, i, j, f);
    AddLowTree(tables, g, r, i, j, f);
    MidHere(tables, g, r, i);
    forall q | q in h.trees && q != r ensures TreeOk(now, h, q) {
      OtherTree(tables, g, now, h, q);
    }
  }

  lemma MidHere(tables: Tables, g: Plan, r: Frame, i: nat)
    requires Inv(tables, g) && r in g.trees && i in g.trees[r].mid
    ensures i < ENTRIES && At(g, g.trees[r].mid[i], r, Mid(i))
  {
    assert TreeOk(tables, g, r) && RootOk(tables, g, r, i);
  }

  lemma AddLowFlat(tables: Tables, g: Plan, r: Frame, i: nat, j: nat, f: Frame)
    requires CanAddLow(tables, g, r, i, j, f)
    ensures Inv(WithTable(tables, g.trees[r].mid[i], j, f), LowPlan(g, r, i, j, f))
    ensures SameFlat(tables, g, WithTable(tables, g.trees[r].mid[i], j, f), LowPlan(g, r, i, j, f))
  {
    hide TreeOk, Px2, Px1, Px0;
    AddLowKeeps(tables, g, r, i, j, f);
    var now, h := WithTable(tables, g.trees[r].mid[i], j, f), LowPlan(g, r, i, j, f);
    MidHere(tables, g, r, i);
    forall q, v: nat | q in g.trees && v < LEAVES ensures Flat(now, h, q, v) == Flat(tables, g, q, v) {
      if q == r {
        LowTable(tables, g, r, v);
      } else {
        OtherFlat(tables, g, now, h, q, v);
      }
    }
  }

  // ---- a leaf entry

  /** Entry i of table f, which is a leaf table. */
  function WithEntry(tables: Tables, f: Frame, i: nat, e: Pte): (now: Tables)
    requires f in tables && i < ENTRIES
  {
    tables[f := tables[f][i := e]]
  }

  /** The flat map of r is changed at v, to e, and there only. */
  ghost predicate FlatSet(tables: Tables, g: Plan, now: Tables, r: Frame, v: nat, e: Pte)
    requires Inv(tables, g) && Inv(now, g) && r in g.trees && v < LEAVES
  {
    && Flat(now, g, r, v) == e
    && forall q, w: nat | q in g.trees && w < LEAVES && (q != r || w != v) :: Flat(now, g, q, w) == Flat(tables, g, q, w)
  }

  lemma SetKeeps(tables: Tables, g: Plan, r: Frame, v: nat, e: Pte)
    requires Inv(tables, g) && r in g.trees && v < LEAVES && (Px2(v), Px1(v)) in g.trees[r].low
    ensures g.trees[r].low[(Px2(v), Px1(v))] in tables
    ensures Inv(WithEntry(tables, g.trees[r].low[(Px2(v), Px1(v))], Px0(v), e), g)
  {
    hide Px2, Px1, Px0, SpotOk;
    LowTable(tables, g, r, v);
    var now := WithEntry(tables, g.trees[r].low[(Px2(v), Px1(v))], Px0(v), e);
    forall q | q in g.trees ensures TreeOk(now, g, q) {
      assert TreeOk(tables, g, q);
      forall k: nat | k < ENTRIES ensures RootOk(now, g, q, k) {
        assert RootOk(tables, g, q, k);
      }
      forall k: nat, m: nat | k in g.trees[q].mid && m < ENTRIES ensures MidOk(now, g, q, k, m) {
        assert MidOk(tables, g, q, k, m) && RootOk(tables, g, q, k);
      }
    }
  }

  lemma SetFlat(tables: Tables, g: Plan, r: Frame, v: nat, e: Pte)
    requires Inv(tables, g) && r in g.trees && v < LEAVES && (Px2(v), Px1(v)) in g.trees[r].low
    ensures g.trees[r].low[(Px2(v), Px1(v))] in tables
    ensures Inv(WithEntry(tables, g.trees[r].low[(Px2(v), Px1(v))], Px0(v), e), g)
    ensures FlatSet(tables, g, WithEntry(tables, g.trees[r].low[(Px2(v), Px1(v))], Px0(v), e), r, v, e)
  {
    hide TreeOk, Px2, Px1, Px0;
    SetKeeps(tables, g, r, v, e);
    LowTable(tables, g, r, v);
    var now := WithEntry(tables, g.trees[r].low[(Px2(v), Px1(v))], Px0(v), e);
    forall q, w: nat | q in g.trees && w < LEAVES && (q != r || w != v) ensures Flat(now, g, q, w) == Flat(tables, g, q, w) {
      LowTable(tables, g, q, w);
      if q == r && Px2(w) == Px2(v) && Px1(w) == Px1(v) && Px0(w) == Px0(v) {
        SplitInjective(v, w);
      }
    }
  }

  // ---- a range of leaf entries

  /** The flat map of r holds es from page v0 on, and is otherwise as it was. */
  ghost predicate FlatRange(tables: Tables, g: Plan, now: Tables, h: Plan, r: Frame, v0: nat, es: seq<Pte>) {
    && Inv(tables, g) && Inv(now, h) && h.trees.Keys == g.trees.Keys && r in g.trees && v0 + |es| <= LEAVES
    && (forall w: nat | v0 <= w < v0 + |es| :: Flat(now, h, r, w) == es[w - v0])
    && (forall q, w: nat | q in g.trees && w < LEAVES && (q != r || w < v0 || w >= v0 + |es|) ::
          Flat(now, h, q, w) == Flat(tables, g, q, w))
  }

  lemma RangeStart(tables: Tables, g: Plan, r: Frame, v0: nat)
    requires Inv(tables, g) && r in g.trees && v0 <= LEAVES
    ensures FlatRange(tables, g, tables, g, r, v0, [])
  {
  }

  lemma RangeSame(tables: Tables, g: Plan, mid: Tables, m: Plan, now: Tables, h: Plan, r: Frame, v0: nat, es: seq<Pte>)
    requires FlatRange(tables, g, mid, m, r, v0, es) && Inv(now, h) && SameFlat(mid, m, now, h)
    ensures FlatRange(tables, g, now, h, r, v0, es)
  {
    hide Inv, Flat;
  }

  lemma RangeGrows(tables: Tables, g: Plan, mid: Tables, now: Tables, h: Plan, r: Frame, v0: nat, es: seq<Pte>, e: Pte)
    requires FlatRange(tables, g, mid, h, r, v0, es) && v0 + |es| < LEAVES
    requires Inv(now, h) && FlatSet(mid, h, now, r, v0 + |es|, e)
    ensures FlatRange(tables, g, now, h, r, v0, es + [e])
  {
    hide Inv, Flat;
  }

  ghost function FrameSet(es: seq<Pte>): (fs: set<Frame>)
    ensures forall k: nat | k < |es| :: FrameOf(es[k]) in fs
    ensures forall f | f in fs :: exists k: nat | k < |es| :: FrameOf(es[k]) == f
  {
    if es == [] then {} else FrameSet(es[..|es| - 1]) + {FrameOf(es[|es| - 1])}
  }
}
