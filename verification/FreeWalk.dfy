/** The page-table pages at and below a place of a tree, and what freewalk of kernel/vm.c leaves as it
    goes through them. */
module FreeWalk {
  import opened PageTree

  function Rank(pos: Pos): (n: nat) {
    match pos
    case Root => 2
    case Mid(_) => 1
    case Low(_, _) => 0
  }

  function Child(pos: Pos, i: nat): (c: Pos)
    requires !pos.Low?
    ensures Rank(c) == Rank(pos) - 1
  {
    if pos.Root? then Mid(i) else Low(pos.i, i)
  }

  /** p is strictly below pos, under one of its first n entries. */
  predicate Below(p: Pos, pos: Pos, n: nat) {
    match pos
    case Root => (p.Mid? || p.Low?) && p.i < n
    case Mid(a) => p.Low? && p.i == a && p.j < n
    case Low(_, _) => false
  }

  lemma BelowMore(p: Pos, pos: Pos, i: nat)
    requires !pos.Low? && InBounds(p)
    ensures Below(p, pos, i + 1) <==> Below(p, pos, i) || p == Child(pos, i) || Below(p, Child(pos, i), ENTRIES)
  {
  }

  predicate InBounds(p: Pos) {
    (p.Mid? ==> p.i < ENTRIES) && (p.Low? ==> p.i < ENTRIES && p.j < ENTRIES)
  }

  /** Table page f of tree r is below pos, under its first n entries. */
  ghost predicate InSub(g: Plan, r: Frame, pos: Pos, n: nat, f: Frame) {
    f in g.place && g.place[f].root == r && Below(g.place[f].pos, pos, n)
  }

  ghost predicate Under(g: Plan, r: Frame, pos: Pos, f: Frame) {
    At(g, f, r, pos) || InSub(g, r, pos, ENTRIES, f)
  }

  /** Every place is that of its table, and within a table. */
  ghost predicate SpotsOk(g: Plan) {
    forall f | f in g.place :: SpotOk(g, f, g.place[f]) && InBounds(g.place[f].pos) && (g.place[f].pos.Low? ==> g.place[f].pos.i in g.trees[g.place[f].root].mid)
  }

  ghost predicate NoLeaves(tables: Tables, f: Frame) {
    f in tables && forall k: nat | k < ENTRIES :: !IsValid(tables[f][k])
  }

  ghost predicate WholeLow(tables: Tables, g: Plan, r: Frame, i: nat, j: nat) {
    && r in g.trees && (i, j) in g.trees[r].low && At(g, g.trees[r].low[(i, j)], r, Low(i, j))
    && NoLeaves(tables, g.trees[r].low[(i, j)])
  }

  ghost predicate WholeMid(tables: Tables, g: Plan, r: Frame, i: nat) {
    && r in g.trees && i in g.trees[r].mid && g.trees[r].mid[i] in tables && At(g, g.trees[r].mid[i], r, Mid(i))
    && (forall j: nat | j < ENTRIES :: MidOk(tables, g, r, i, j))
    && (forall j: nat | (i, j) in g.trees[r].low :: WholeLow(tables, g, r, i, j))
  }

  ghost predicate WholeRoot(tables: Tables, g: Plan, r: Frame) {
    && r in g.trees && r in tables && At(g, r, r, Root)
    && (forall i: nat | i < ENTRIES :: RootOk(tables, g, r, i))
    && (forall i: nat | i in g.trees[r].mid :: WholeMid(tables, g, r, i))
  }

  /** The tables at and below pos are as the plan says, and hold no leaf. */
  ghost predicate Whole(tables: Tables, g: Plan, r: Frame, pos: Pos) {
    match pos
    case Root => WholeRoot(tables, g, r)
    case Mid(i) => WholeMid(tables, g, r, i)
    case Low(i, j) => WholeLow(tables, g, r, i, j)
  }

  ghost predicate SameUnder(tables: Tables, now: Tables, g: Plan, r: Frame, pos: Pos) {
    forall f | f in tables && Under(g, r, pos, f) :: f in now && now[f] == tables[f]
  }

  lemma WholeLowFrame(tables: Tables, now: Tables, g: Plan, r: Frame, i: nat, j: nat)
    requires WholeLow(tables, g, r, i, j) && SameUnder(tables, now, g, r, Low(i, j))
    ensures WholeLow(now, g, r, i, j)
  {
  }

  lemma WholeMidFrame(tables: Tables, now: Tables, g: Plan, r: Frame, i: nat)
    requires SpotsOk(g) && WholeMid(tables, g, r, i) && SameUnder(tables, now, g, r, Mid(i))
    ensures WholeMid(now, g, r, i)
  {
    assert Under(g, r, Mid(i), g.trees[r].mid[i]);
    forall j: nat | (i, j) in g.trees[r].low ensures WholeLow(now, g, r, i, j) {
      assert WholeLow(tables, g, r, i, j);
      assert Under(g, r, Mid(i), g.trees[r].low[(i, j)]);
    }
    forall j: nat | j < ENTRIES ensures MidOk(now, g, r, i, j) {
      assert MidOk(tables, g, r, i, j);
    }
  }

  /** A child of pos: where the entry points to, and what is below it. */
  lemma ChildWhole(tables: Tables, g: Plan, r: Frame, pos: Pos, f: Frame, i: nat)
    requires Whole(tables, g, r, pos) && At(g, f, r, pos) && SpotsOk(g) && i < ENTRIES
    ensures f in tables
    ensures pos.Low? ==> !IsValid(tables[f][i])
    ensures !pos.Low? && IsValid(tables[f][i]) ==>
              && Whole(tables, g, r, Child(pos, i)) && At(g, FrameOf(tables[f][i]), r, Child(pos, i))
              && FlagsOf(tables[f][i]) == PTE_V
    ensures !pos.Low? && !IsValid(tables[f][i]) ==> forall x :: !Under(g, r, Child(pos, i), x)
  {
    hide FrameOf, FlagsOf, IsValid, Entry;
    match pos
    case Low(a, b) => assert SpotOk(g, f, g.place[f]);
    case Mid(a) =>
      assert SpotOk(g, f, g.place[f]) && MidOk(tables, g, r, a, i);
      forall x ensures !IsValid(tables[f][i]) ==> !Under(g, r, Low(a, i), x) {
        assert x in g.place ==> SpotOk(g, x, g.place[x]);
      }
    case Root =>
      assert SpotOk(g, f, g.place[f]) && RootOk(tables, g, r, i);
      forall x ensures !IsValid(tables[f][i]) ==> !Under(g, r, Mid(i), x) {
        assert x in g.place ==> SpotOk(g, x, g.place[x]);
      }
  }

  // ---- progress of freewalk

  /** Of the tables other than f, those under its first n entries are gone and the rest are as they were. */
  ghost predicate Swept(tables: Tables, now: Tables, g: Plan, r: Frame, pos: Pos, f: Frame, n: nat) {
    forall x | x != f :: (x in now <==> x in tables && !InSub(g, r, pos, n, x)) && (x in now ==> now[x] == tables[x])
  }

  /** The tables at and below pos are gone and the rest are as they were. */
  ghost predicate Cleared(tables: Tables, now: Tables, g: Plan, r: Frame, pos: Pos) {
    forall x :: (x in now <==> x in tables && !Under(g, r, pos, x)) && (x in now ==> now[x] == tables[x])
  }

  ghost predicate BusySwept(busy: set<nat>, now: set<nat>, g: Plan, r: Frame, pos: Pos, n: nat) {
    forall x :: x in now <==> x in busy && !InSub(g, r, pos, n, x)
  }

  ghost predicate BusyCleared(busy: set<nat>, now: set<nat>, g: Plan, r: Frame, pos: Pos) {
    forall x :: x in now <==> x in busy && !Under(g, r, pos, x)
  }

  lemma SweptNone(tables: Tables, busy: set<nat>, g: Plan, r: Frame, pos: Pos, f: Frame)
    ensures Swept(tables, tables, g, r, pos, f, 0) && BusySwept(busy, busy, g, r, pos, 0)
  {
  }

  /** What is below the next entry is still there. */
  lemma SweptChild(tables: Tables, now: Tables, g: Plan, r: Frame, pos: Pos, f: Frame, i: nat)
    requires Swept(tables, now, g, r, pos, f, i) && SpotsOk(g) && At(g, f, r, pos) && !pos.Low? && i < ENTRIES
    requires Whole(tables, g, r, Child(pos, i))
    ensures Whole(now, g, r, Child(pos, i))
  {
    hide Swept, WholeLow, WholeMid, WholeRoot;
    assert SameUnder(tables, now, g, r, Child(pos, i)) by {
      SweptUnder(tables, now, g, r, pos, f, i);
    }
    if pos.Root? {
      WholeMidFrame(tables, now, g, r, i);
    } else {
      WholeLowFrame(tables, now, g, r, pos.i, i);
    }
  }

  lemma SweptUnder(tables: Tables, now: Tables, g: Plan, r: Frame, pos: Pos, f: Frame, i: nat)
    requires Swept(tables, now, g, r, pos, f, i) && At(g, f, r, pos) && !pos.Low?
    ensures SameUnder(tables, now, g, r, Child(pos, i))
  {
  }

  /** The next entry's tables are gone too. */
  lemma SweptMore(tables: Tables, mid: Tables, now: Tables, g: Plan, r: Frame, pos: Pos, f: Frame, i: nat,
                  busy: set<nat>, busy1: set<nat>, busy2: set<nat>)
    requires Swept(tables, mid, g, r, pos, f, i) && SpotsOk(g) && At(g, f, r, pos) && !pos.Low? && i < ENTRIES && f in mid
    requires Cleared(mid, now, g, r, Child(pos, i))
    requires BusySwept(busy, busy1, g, r, pos, i) && BusyCleared(busy1, busy2, g, r, Child(pos, i))
    ensures f in now && now[f] == mid[f]
    ensures Swept(tables, now, g, r, pos, f, i + 1) && BusySwept(busy, busy2, g, r, pos, i + 1)
  {
    forall x ensures InSub(g, r, pos, i + 1, x) <==> InSub(g, r, pos, i, x) || Under(g, r, Child(pos, i), x) {
      if x in g.place && g.place[x].root == r {
        BelowMore(g.place[x].pos, pos, i);
      }
    }
    assert !Under(g, r, Child(pos, i), f);
  }

  lemma SweptSkip(tables: Tables, now: Tables, g: Plan, r: Frame, pos: Pos, f: Frame, i: nat, busy: set<nat>, busy1: set<nat>)
    requires Swept(tables, now, g, r, pos, f, i) && SpotsOk(g) && BusySwept(busy, busy1, g, r, pos, i)
    requires pos.Low? || forall x :: !Under(g, r, Child(pos, i), x)
    ensures Swept(tables, now, g, r, pos, f, i + 1) && BusySwept(busy, busy1, g, r, pos, i + 1)
  {
    forall x ensures InSub(g, r, pos, i + 1, x) <==> InSub(g, r, pos, i, x) {
      if x in g.place && g.place[x].root == r && !pos.Low? {
        BelowMore(g.place[x].pos, pos, i);
        assert !Under(g, r, Child(pos, i), x);
      }
    }
  }

  /** Freeing f itself ends the sweep. */
  lemma SweptAll(tables: Tables, now: Tables, g: Plan, r: Frame, pos: Pos, f: Frame, busy: set<nat>, busy1: set<nat>)
    requires Swept(tables, now, g, r, pos, f, ENTRIES) && BusySwept(busy, busy1, g, r, pos, ENTRIES)
    requires SpotsOk(g) && At(g, f, r, pos) && f in tables && f in busy1
    ensures Cleared(tables, now - {f}, g, r, pos) && BusyCleared(busy, busy1 - {f}, g, r, pos)
  {
  }

  // ---- a whole tree

  /** Without leaves a tree is what freewalk asks for. */
  lemma TreeWhole(tables: Tables, g: Plan, r: Frame)
    requires Inv(tables, g) && r in g.trees
    requires forall v: nat | v < LEAVES :: !IsValid(Flat(tables, g, r, v))
    ensures Whole(tables, g, r, Root)
  {
    hide Px2, Px1, Px0, IsValid, SpotOk;
    assert TreeOk(tables, g, r);
    forall i: nat | i in g.trees[r].mid ensures WholeMid(tables, g, r, i) {
      assert RootOk(tables, g, r, i);
      forall j: nat | (i, j) in g.trees[r].low ensures WholeLow(tables, g, r, i, j) {
        LowEmpty(tables, g, r, i, j);
      }
    }
  }

  lemma LowEmpty(tables: Tables, g: Plan, r: Frame, i: nat, j: nat)
    requires Inv(tables, g) && r in g.trees && (i, j) in g.trees[r].low
    requires forall v: nat | v < LEAVES :: !IsValid(Flat(tables, g, r, v))
    ensures WholeLow(tables, g, r, i, j)
  {
    hide Px2, Px1, Px0, IsValid, SpotOk;
    assert TreeOk(tables, g, r) && MidOk(tables, g, r, i, j);
    var f := g.trees[r].low[(i, j)];
    forall k: nat | k < ENTRIES ensures !IsValid(tables[f][k]) {
      var v := SplitOnto(i, j, k);
      assert Flat(tables, g, r, v) == tables[f][k];
    }
  }

  lemma SpotsFine(tables: Tables, g: Plan)
    requires Inv(tables, g)
    ensures SpotsOk(g)
  {
    forall f | f in g.place
      ensures SpotOk(g, f, g.place[f]) && InBounds(g.place[f].pos)
      ensures g.place[f].pos.Low? ==> g.place[f].pos.i in g.trees[g.place[f].root].mid
    {
      assert SpotOk(g, f, g.place[f]) && TreeOk(tables, g, g.place[f].root);
    }
  }

  ghost function WithoutTree(g: Plan, r: Frame): (h: Plan) {
    Plan(g.trees - {r}, map f | f in g.place && g.place[f].root != r :: g.place[f])
  }

  /** After freewalk of a whole tree the others stand as they did. */
  lemma ClearedKeeps(tables: Tables, now: Tables, g: Plan, r: Frame)
    requires Inv(tables, g) && r in g.trees && Cleared(tables, now, g, r, Root)
    ensures Inv(now, WithoutTree(g, r))
    ensures forall q, v: nat | q in g.trees && q != r && v < LEAVES ::
              Flat(now, WithoutTree(g, r), q, v) == Flat(tables, g, q, v)
  {
    hide TreeOk, Flat;
    var h := WithoutTree(g, r);
    RootIsAll(tables, g, r);
    assert Placed(now, h) by {
      forall f | f in h.place ensures SpotOk(h, f, h.place[f]) {
        assert SpotOk(g, f, g.place[f]);
      }
    }
    forall q | q in h.trees ensures TreeOk(now, h, q) {
      OtherTree(tables, g, now, h, q);
    }
    forall q, v: nat | q in g.trees && q != r && v < LEAVES ensures Flat(now, h, q, v) == Flat(tables, g, q, v) {
      OtherFlat(tables, g, now, h, q, v);
    }
  }

  lemma RootIsAll(tables: Tables, g: Plan, r: Frame)
    requires Inv(tables, g) && r in g.trees
    ensures forall f :: Under(g, r, Root, f) <==> f in g.place && g.place[f].root == r
  {
  }

  // ---- a new tree

  ghost function WithTree(g: Plan, f: Frame): (h: Plan) {
    Plan(g.trees[f := Tree(map[], map[])], g.place[f := Spot(f, Root)])
  }

  lemma NewTreeKeeps(tables: Tables, g: Plan, f: Frame, now: Tables, h: Plan)
    requires Inv(tables, g) && f !in tables && now == tables[f := ZeroTable()] && h == WithTree(g, f)
    ensures f !in g.trees && Inv(now, h)
    ensures forall v: nat | v < LEAVES :: Flat(now, h, f, v) == 0
    ensures forall q, v: nat | q in g.trees && v < LEAVES :: Flat(now, h, q, v) == Flat(tables, g, q, v)
  {
    hide Flat, TreeOk, Zeros;
    NewTreePlaced(tables, g, f, now, h);
    NewTreeRoot(now, h, f);
    forall q | q in h.trees && q != f ensures TreeOk(now, h, q) {
      OtherTree(tables, g, now, h, q);
    }
    NewFlat(now, h, f);
    forall q, v: nat | q in g.trees && v < LEAVES ensures Flat(now, h, q, v) == Flat(tables, g, q, v) {
      OtherFlat(tables, g, now, h, q, v);
    }
  }

  lemma NewTreePlaced(tables: Tables, g: Plan, f: Frame, now: Tables, h: Plan)
    requires Inv(tables, g) && f !in tables && now == tables[f := ZeroTable()] && h == WithTree(g, f)
    ensures f !in g.trees && Placed(now, h)
  {
    hide TreeOk, Zeros;
    assert f !in g.trees by {
      NotRoot(tables, g, f);
    }
    forall x | x in h.place ensures SpotOk(h, x, h.place[x]) {
      assert x != f ==> SpotOk(g, x, g.place[x]);
    }
  }

  lemma NotRoot(tables: Tables, g: Plan, f: Frame)
    requires Inv(tables, g) && f !in tables
    ensures f !in g.trees
  {
  }

  lemma NewTreeRoot(now: Tables, h: Plan, f: Frame)
    requires f in now && now[f] == ZeroTable() && f in h.trees && h.trees[f] == Tree(map[], map[]) && At(h, f, f, Root)
    ensures TreeOk(now, h, f)
  {
  }

  lemma NewFlat(tables: Tables, g: Plan, f: Frame)
    requires Inv(tables, g) && f in g.trees && g.trees[f].low == map[]
    ensures forall v: nat | v < LEAVES :: Flat(tables, g, f, v) == 0
  {
  }
}
