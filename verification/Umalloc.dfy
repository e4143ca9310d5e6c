/** The Kernighan and Ritchie allocator of user/umalloc.c. Addresses and sizes are in units of
    sizeof(Header); the headers are maps from the address of a block to its `ptr` and `size`. */
module Umalloc {
  import opened Common

  const HEADER := 16       // sizeof(Header)
  const MINCORE: nat := 4096

  // ------------------------------------------------------------------ the free list as a sequence

  ghost predicate Ascending(ring: seq<nat>) {
    forall j, k | 0 <= j < k < |ring| :: ring[j] < ring[k]
  }

  ghost function After(ring: seq<nat>, k: nat): (r: nat)
    requires k < |ring|
  {
    if k + 1 < |ring| then ring[k + 1] else ring[0]
  }

  ghost predicate Link(ptr: map<nat, nat>, ring: seq<nat>, k: nat)
    requires k < |ring|
  {
    ring[k] in ptr && ptr[ring[k]] == After(ring, k)
  }

  /** Following ptr from any block of the list goes once around all of them. */
  ghost predicate Linked(ptr: map<nat, nat>, ring: seq<nat>) {
    forall k | 0 <= k < |ring| :: Link(ptr, ring, k)
  }

  ghost predicate InBlock(ring: seq<nat>, size: map<nat, nat>, k: nat, u: nat)
    requires k < |ring|
  {
    ring[k] in size && ring[k] <= u < ring[k] + size[ring[k]]
  }

  /** Unit u is in a free block. */
  ghost predicate InFree(ring: seq<nat>, size: map<nat, nat>, u: nat) {
    exists k | 1 <= k < |ring| :: InBlock(ring, size, k, u)
  }

  ghost predicate InLive(live: map<nat, nat>, u: nat) {
    exists a | a in live :: a <= u < a + live[a]
  }

  /** Some units lie between block k and the next one. */
  ghost predicate Gap(ring: seq<nat>, size: map<nat, nat>, k: nat)
    requires k + 1 < |ring| && ring[k] in size
  {
    ring[k] + size[ring[k]] < ring[k + 1]
  }

  /** The list starts at base, of size 0, and the other free blocks follow in address order, no
      two of them touching. */
  ghost predicate FreeOk(base: nat, ring: seq<nat>, size: map<nat, nat>) {
    && |ring| >= 1 && ring[0] == base && Ascending(ring)
    && (forall k | 0 <= k < |ring| :: ring[k] in size)
    && size[base] == 0
    && (forall k | 1 <= k < |ring| :: size[ring[k]] >= 1)
    && (forall k | 1 <= k < |ring| - 1 :: Gap(ring, size, k))
  }

  ghost predicate Apart(a: nat, n: nat, b: nat, m: nat) {
    a + n <= b || b + m <= a
  }

  /** Live blocks are disjoint from each other and from the free blocks, and their headers still
      hold their sizes. */
  ghost predicate LiveOk(base: nat, ring: seq<nat>, size: map<nat, nat>, live: map<nat, nat>) {
    && (forall a | a in live :: a > base && live[a] >= 1 && a in size && size[a] == live[a])
    && (forall a, b | a in live && b in live && a != b :: Apart(a, live[a], b, live[b]))
    && (forall k, a | 1 <= k < |ring| && a in live :: ring[k] in size && Apart(ring[k], size[ring[k]], a, live[a]))
  }

  /** Every unit obtained from sbrk is in a free block or in a live block. */
  ghost predicate Conserved(ring: seq<nat>, size: map<nat, nat>, live: map<nat, nat>, arena: set<nat>) {
    forall u: nat :: u in arena <==> InFree(ring, size, u) || InLive(live, u)
  }

  ghost predicate Good(base: nat, ring: seq<nat>, size: map<nat, nat>, live: map<nat, nat>, arena: set<nat>) {
    FreeOk(base, ring, size) && LiveOk(base, ring, size, live) && Conserved(ring, size, live, arena)
  }

  // ------------------------------------------------------------------ inserting a block

  /** Block bp, outside the free list, lies between ring[k] and the next one. */
  ghost predicate Fits(ring: seq<nat>, size: map<nat, nat>, k: nat, bp: nat) {
    && k < |ring| && ring[k] < bp && bp in size && size[bp] >= 1
    && (forall j | 0 <= j < |ring| :: ring[j] in size)
    && (k > 0 ==> ring[k] + size[ring[k]] <= bp)
    && (k + 1 < |ring| ==> bp + size[bp] <= ring[k + 1])
  }

  /** Like FreeOk, except that blocks k and k+1 may touch. */
  ghost predicate FreeTouching(base: nat, ring: seq<nat>, size: map<nat, nat>, t: nat) {
    && |ring| >= 1 && ring[0] == base && Ascending(ring)
    && (forall k | 0 <= k < |ring| :: ring[k] in size)
    && size[base] == 0
    && (forall k | 1 <= k < |ring| :: size[ring[k]] >= 1)
    && (forall k | 1 <= k < |ring| - 1 && k != t :: Gap(ring, size, k))
    && (1 <= t < |ring| - 1 ==> ring[t] + size[ring[t]] <= ring[t + 1])
  }

  ghost function WithNext(ring: seq<nat>, k: nat, bp: nat, up: bool): (r: seq<nat>)
    requires k < |ring| && (up ==> k + 1 < |ring|)
    ensures |r| == |ring| + if up then 0 else 1
    ensures forall j | 0 <= j <= k :: r[j] == ring[j]
    ensures r[k + 1] == bp
    ensures forall j | k + 1 < j < |r| :: r[j] == ring[if up then j else j - 1]
  {
    ring[..k + 1] + [bp] + ring[if up then k + 2 else k + 1..]
  }

  ghost function SizesUp(ring: seq<nat>, size: map<nat, nat>, k: nat, bp: nat, up: bool): (r: map<nat, nat>)
    requires bp in size && (up ==> k + 1 < |ring| && ring[k + 1] in size)
  {
    if up then size[bp := size[bp] + size[ring[k + 1]]] else size
  }

  /** Insert bp after ring[k], absorbing the next block if bp reaches up to it. */
  lemma InsertUp(base: nat, ring: seq<nat>, size: map<nat, nat>, k: nat, bp: nat, up: bool)
    requires FreeOk(base, ring, size) && Fits(ring, size, k, bp)
    requires up <==> k + 1 < |ring| && bp + size[bp] == ring[k + 1]
    ensures FreeTouching(base, WithNext(ring, k, bp, up), SizesUp(ring, size, k, bp, up), k)
  {
    hide WithNext, Gap;
    var ring', size' := WithNext(ring, k, bp, up), SizesUp(ring, size, k, bp, up);
    assert bp !in ring;
    forall j | 1 <= j < |ring'| - 1 && j != k ensures Gap(ring', size', j) {
      InsertGap(base, ring, size, k, bp, up, j);
    }
  }

  lemma InsertGap(base: nat, ring: seq<nat>, size: map<nat, nat>, k: nat, bp: nat, up: bool, j: nat)
    requires FreeOk(base, ring, size) && Fits(ring, size, k, bp)
    requires up <==> k + 1 < |ring| && bp + size[bp] == ring[k + 1]
    requires 1 <= j < |WithNext(ring, k, bp, up)| - 1 && j != k
    ensures Gap(WithNext(ring, k, bp, up), SizesUp(ring, size, k, bp, up), j)
  {
    hide WithNext;
    if j < k {
      assert Gap(ring, size, j);
    } else if j == k + 1 {
      if up {
        assert Gap(ring, size, k + 1);
      }
    } else {
      assert Gap(ring, size, if up then j else j - 1);
    }
  }

  lemma InsertUpUnits(base: nat, ring: seq<nat>, size: map<nat, nat>, k: nat, bp: nat, up: bool, u: nat)
    requires FreeOk(base, ring, size) && Fits(ring, size, k, bp)
    requires up <==> k + 1 < |ring| && bp + size[bp] == ring[k + 1]
    ensures InFree(WithNext(ring, k, bp, up), SizesUp(ring, size, k, bp, up), u)
       <==> InFree(ring, size, u) || bp <= u < bp + size[bp]
  {
    hide WithNext;
    var ring', size' := WithNext(ring, k, bp, up), SizesUp(ring, size, k, bp, up);
    assert bp !in ring;
    if InFree(ring, size, u) {
      var j :| 1 <= j < |ring| && InBlock(ring, size, j, u);
      assert InBlock(ring', size', if j <= k then j else if up then j else j + 1, u);
    }
    if bp <= u < bp + size[bp] {
      assert InBlock(ring', size', k + 1, u);
    }
    if InFree(ring', size', u) {
      var j :| 1 <= j < |ring'| && InBlock(ring', size', j, u);
      if j != k + 1 {
        assert InBlock(ring, size, if j <= k then j else if up then j else j - 1, u);
      } else if up && u >= ring[k + 1] {
        assert InBlock(ring, size, k + 1, u);
      }
    }
  }

  ghost function WithoutNext(ring: seq<nat>, k: nat): (r: seq<nat>)
    requires k + 1 < |ring|
    ensures |r| == |ring| - 1
    ensures forall j | 0 <= j < |r| :: r[j] == ring[if j <= k then j else j + 1]
  {
    ring[..k + 1] + ring[k + 2..]
  }

  ghost function SizesDown(ring: seq<nat>, size: map<nat, nat>, k: nat): (r: map<nat, nat>)
    requires k + 1 < |ring| && ring[k] in size && ring[k + 1] in size
  {
    size[ring[k] := size[ring[k]] + size[ring[k + 1]]]
  }

  /** Let ring[k] absorb the next block, which it touches. */
  lemma MergeDown(base: nat, ring: seq<nat>, size: map<nat, nat>, k: nat)
    requires FreeTouching(base, ring, size, k) && k + 1 < |ring| && ring[k] + size[ring[k]] == ring[k + 1]
    ensures k > 0
    ensures FreeOk(base, WithoutNext(ring, k), SizesDown(ring, size, k))
  {
    hide WithoutNext;
    var ring', size' := WithoutNext(ring, k), SizesDown(ring, size, k);
    forall j | 1 <= j < |ring'| - 1 ensures Gap(ring', size', j) {
      assert Gap(ring, size, if j < k then j else j + 1);
    }
  }

  lemma MergeDownUnits(base: nat, ring: seq<nat>, size: map<nat, nat>, k: nat, u: nat)
    requires FreeTouching(base, ring, size, k) && k + 1 < |ring| && ring[k] + size[ring[k]] == ring[k + 1]
    ensures InFree(WithoutNext(ring, k), SizesDown(ring, size, k), u) <==> InFree(ring, size, u)
  {
    hide WithoutNext;
    var ring', size' := WithoutNext(ring, k), SizesDown(ring, size, k);
    if InFree(ring, size, u) {
      var j :| 1 <= j < |ring| && InBlock(ring, size, j, u);
      assert InBlock(ring', size', if j <= k then j else j - 1, u);
    }
    if InFree(ring', size', u) {
      var j :| 1 <= j < |ring'| && InBlock(ring', size', j, u);
      assert InBlock(ring, size, if j < k then j else if j > k then j + 1 else if u < ring[k + 1] then k else k + 1, u);
    }
  }

  lemma InsertLinked(ptr: map<nat, nat>, ring: seq<nat>, k: nat, bp: nat, up: bool)
    requires Linked(ptr, ring) && Ascending(ring) && k < |ring| && (up ==> k + 1 < |ring|) && bp !in ring
    ensures var next := if up then After(ring, k + 1) else After(ring, k);
            Linked(ptr[bp := next][ring[k] := bp], WithNext(ring, k, bp, up))
  {
    hide WithNext;
    var next := if up then After(ring, k + 1) else After(ring, k);
    var ring', ptr' := WithNext(ring, k, bp, up), ptr[bp := next][ring[k] := bp];
    forall j | 0 <= j < |ring'| ensures Link(ptr', ring', j) {
      if j <= k {
        assert Link(ptr, ring, j);
      } else if j > k + 1 {
        assert Link(ptr, ring, if up then j else j - 1);
      }
    }
  }

  lemma MergeLinked(ptr: map<nat, nat>, ring: seq<nat>, k: nat)
    requires Linked(ptr, ring) && Ascending(ring) && k + 1 < |ring|
    ensures Linked(ptr[ring[k] := After(ring, k + 1)], WithoutNext(ring, k))
  {
    hide WithoutNext;
    var ring', ptr' := WithoutNext(ring, k), ptr[ring[k] := After(ring, k + 1)];
    forall j | 0 <= j < |ring'| ensures Link(ptr', ring', j) {
      assert Link(ptr, ring, if j <= k then j else j + 1);
    }
  }

  // ------------------------------------------------------------------ reasoning by units

  lemma ApartByUnits(a: nat, n: nat, b: nat, m: nat)
    requires n >= 1 && m >= 1
    requires !(b <= a < b + m) && !(a <= b < a + n)
    ensures Apart(a, n, b, m)
  {
  }

  /** No unit is both free and live. */
  lemma UnitsDisjoint(base: nat, ring: seq<nat>, size: map<nat, nat>, live: map<nat, nat>, u: nat)
    requires LiveOk(base, ring, size, live)
    ensures !(InFree(ring, size, u) && InLive(live, u))
  {
  }

  ghost predicate HeadersOk(base: nat, size: map<nat, nat>, live: map<nat, nat>) {
    forall a | a in live :: a > base && live[a] >= 1 && a in size && size[a] == live[a]
  }

  ghost predicate LiveApart(live: map<nat, nat>) {
    forall a, b | a in live && b in live && a != b :: Apart(a, live[a], b, live[b])
  }

  /** A good heap, from facts about single units. */
  lemma GoodByUnits(base: nat, ring: seq<nat>, size: map<nat, nat>, live: map<nat, nat>, arena: set<nat>)
    requires FreeOk(base, ring, size) && HeadersOk(base, size, live) && LiveApart(live)
    requires forall u: nat :: !(InFree(ring, size, u) && InLive(live, u))
    requires Conserved(ring, size, live, arena)
    ensures Good(base, ring, size, live, arena)
  {
    forall k, a | 1 <= k < |ring| && a in live ensures Apart(ring[k], size[ring[k]], a, live[a]) {
      var b, n := ring[k], size[ring[k]];
      if a <= b < a + live[a] {
        assert InBlock(ring, size, k, b) && InFree(ring, size, b) && InLive(live, b);
        assert false;
      }
      if b <= a < b + n {
        assert InBlock(ring, size, k, a) && InFree(ring, size, a) && InLive(live, a);
        assert false;
      }
      ApartByUnits(b, n, a, live[a]);
    }
  }

  lemma LiveWithout(live: map<nat, nat>, bp: nat, u: nat)
    requires LiveApart(live) && bp in live
    ensures InLive(live - {bp}, u) <==> InLive(live, u) && !(bp <= u < bp + live[bp])
  {
    var rest := live - {bp};
    if InLive(live, u) && !(bp <= u < bp + live[bp]) {
      var a :| a in live && a <= u < a + live[a];
      assert a in rest;
    }
    if InLive(rest, u) {
      var a :| a in rest && a <= u < a + rest[a];
      assert a in live && Apart(a, live[a], bp, live[bp]);
    }
  }

  /** Returning live block bp to the free list, in any shape that adds just its units. */
  lemma FreeKeepsGood(base: nat, ring: seq<nat>, size: map<nat, nat>, live: map<nat, nat>, arena: set<nat>,
                      bp: nat, ring': seq<nat>, size': map<nat, nat>)
    requires Good(base, ring, size, live, arena) && bp in live
    requires FreeOk(base, ring', size') && HeadersOk(base, size', live - {bp})
    requires forall u: nat :: InFree(ring', size', u) <==> InFree(ring, size, u) || bp <= u < bp + live[bp]
    ensures Good(base, ring', size', live - {bp}, arena)
  {
    hide FreeOk, InFree, InLive;
    forall u: nat
      ensures !(InFree(ring', size', u) && InLive(live - {bp}, u))
      ensures u in arena <==> InFree(ring', size', u) || InLive(live - {bp}, u)
    {
      UnitsDisjoint(base, ring, size, live, u);
      LiveWithout(live, bp, u);
      if bp <= u < bp + live[bp] {
        LiveHere(live, bp, u);
      }
    }
    GoodByUnits(base, ring', size', live - {bp}, arena);
  }

  lemma LiveHere(live: map<nat, nat>, bp: nat, u: nat)
    requires bp in live && bp <= u < bp + live[bp]
    ensures InLive(live, u)
  {
  }

  // ------------------------------------------------------------------ taking a block

  lemma TakeWhole(base: nat, ring: seq<nat>, size: map<nat, nat>, k: nat)
    requires FreeOk(base, ring, size) && 1 <= k < |ring|
    ensures FreeOk(base, WithoutNext(ring, k - 1), size)
  {
    hide WithoutNext;
    var ring' := WithoutNext(ring, k - 1);
    forall j | 1 <= j < |ring'| - 1 ensures Gap(ring', size, j) {
      assert Gap(ring, size, if j < k then j else j + 1);
      if j == k - 1 {
        assert Gap(ring, size, j);
      }
    }
  }

  lemma TakeWholeUnits(base: nat, ring: seq<nat>, size: map<nat, nat>, k: nat, u: nat)
    requires FreeOk(base, ring, size) && 1 <= k < |ring|
    ensures InFree(WithoutNext(ring, k - 1), size, u) <==> InFree(ring, size, u) && !InBlock(ring, size, k, u)
  {
    hide WithoutNext;
    var ring' := WithoutNext(ring, k - 1);
    if InFree(ring, size, u) && !InBlock(ring, size, k, u) {
      var j :| 1 <= j < |ring| && InBlock(ring, size, j, u);
      assert InBlock(ring', size, if j < k then j else j - 1, u);
    }
    if InFree(ring', size, u) {
      var j :| 1 <= j < |ring'| && InBlock(ring', size, j, u);
      var m := if j < k then j else j + 1;
      assert InBlock(ring, size, m, u);
      BlocksApart(base, ring, size, m, k, u);
    }
  }

  /** Free blocks do not overlap. */
  lemma BlocksApart(base: nat, ring: seq<nat>, size: map<nat, nat>, j: nat, k: nat, u: nat)
    requires FreeOk(base, ring, size) && 1 <= j < |ring| && 1 <= k < |ring| && j != k && InBlock(ring, size, j, u)
    ensures !InBlock(ring, size, k, u)
  {
    if j < k {
      assert Gap(ring, size, j);
      assert ring[j + 1] <= ring[k];
    } else {
      assert Gap(ring, size, k);
      assert ring[k + 1] <= ring[j];
    }
  }

  /** The sizes after cutting n units off the end of block p. */
  ghost function Cut(size: map<nat, nat>, p: nat, n: nat): (r: map<nat, nat>)
    requires p in size && n < size[p]
  {
    size[p := size[p] - n][p + size[p] - n := n]
  }

  lemma TakeTail(base: nat, ring: seq<nat>, size: map<nat, nat>, k: nat, n: nat)
    requires FreeOk(base, ring, size) && 1 <= k < |ring| && 1 <= n < size[ring[k]]
    ensures ring[k] + size[ring[k]] - n !in ring
    ensures FreeOk(base, ring, Cut(size, ring[k], n))
  {
    var b := ring[k] + size[ring[k]] - n;
    var size' := Cut(size, ring[k], n);
    forall j | 0 <= j < |ring| ensures ring[j] != b {
      if j > k {
        assert Gap(ring, size, k);
        assert ring[k + 1] <= ring[j];
      }
    }
    forall j | 1 <= j < |ring| - 1 ensures Gap(ring, size', j) {
      assert Gap(ring, size, j);
    }
  }

  lemma TakeTailUnits(base: nat, ring: seq<nat>, size: map<nat, nat>, k: nat, n: nat, u: nat)
    requires FreeOk(base, ring, size) && 1 <= k < |ring| && 1 <= n < size[ring[k]]
    ensures var b := ring[k] + size[ring[k]] - n;
            InFree(ring, Cut(size, ring[k], n), u) <==> InFree(ring, size, u) && !(b <= u < b + n)
  {
    var b := ring[k] + size[ring[k]] - n;
    var size' := Cut(size, ring[k], n);
    TakeTail(base, ring, size, k, n);
    if InFree(ring, size, u) && !(b <= u < b + n) {
      var j :| 1 <= j < |ring| && InBlock(ring, size, j, u);
      assert InBlock(ring, size', j, u);
    }
    if InFree(ring, size', u) {
      var j :| 1 <= j < |ring| && InBlock(ring, size', j, u);
      assert InBlock(ring, size, j, u);
      if j != k {
        BlocksApart(base, ring, size, j, k, u);
      }
    }
  }

  lemma LiveWith(live: map<nat, nat>, b: nat, n: nat, u: nat)
    requires b !in live
    ensures InLive(live[b := n], u) <==> InLive(live, u) || b <= u < b + n
  {
    var more := live[b := n];
    if InLive(live, u) {
      var a :| a in live && a <= u < a + live[a];
      assert a in more && a <= u < a + more[a];
    }
    if b <= u < b + n {
      assert b in more && b <= u < b + more[b];
    }
  }

  /** Handing out n units of the free list as live block b. */
  lemma AllocKeepsGood(base: nat, ring: seq<nat>, size: map<nat, nat>, live: map<nat, nat>, arena: set<nat>,
                       b: nat, n: nat, ring': seq<nat>, size': map<nat, nat>)
    requires Good(base, ring, size, live, arena) && n >= 1
    requires forall u: nat | b <= u < b + n :: InFree(ring, size, u)
    requires FreeOk(base, ring', size') && HeadersOk(base, size', live[b := n])
    requires forall u: nat :: InFree(ring', size', u) <==> InFree(ring, size, u) && !(b <= u < b + n)
    ensures b !in live && Good(base, ring', size', live[b := n], arena)
  {
    hide FreeOk, InFree, InLive;
    NewIsApart(base, ring, size, live, b, n);
    forall u: nat
      ensures !(InFree(ring', size', u) && InLive(live[b := n], u))
      ensures u in arena <==> InFree(ring', size', u) || InLive(live[b := n], u)
    {
      UnitsDisjoint(base, ring, size, live, u);
      LiveWith(live, b, n, u);
    }
    GoodByUnits(base, ring', size', live[b := n], arena);
  }

  lemma NewIsApart(base: nat, ring: seq<nat>, size: map<nat, nat>, live: map<nat, nat>, b: nat, n: nat)
    requires LiveOk(base, ring, size, live) && n >= 1
    requires forall u: nat | b <= u < b + n :: InFree(ring, size, u)
    ensures b !in live && LiveApart(live[b := n])
  {
    hide InFree;
    forall a | a in live ensures Apart(a, live[a], b, n) {
      UnitsDisjoint(base, ring, size, live, a);
      UnitsDisjoint(base, ring, size, live, b);
      LiveHere(live, a, a);
      assert a <= b < a + live[a] ==> InLive(live, b);
      ApartByUnits(a, live[a], b, n);
    }
  }

  // ------------------------------------------------------------------ growing the heap

  ghost function Units(a: nat, n: nat): (r: set<nat>)
    ensures forall u: nat :: u in r <==> a <= u < a + n
  {
    if n == 0 then {} else Units(a, n - 1) + {a + n - 1}
  }

  /** A region from sbrk, taken as one more live block before it is freed. */
  lemma GrowKeepsGood(base: nat, ring: seq<nat>, size: map<nat, nat>, live: map<nat, nat>, arena: set<nat>, hp: nat, n: nat)
    requires Good(base, ring, size, live, arena) && hp > base && n >= 1 && Units(hp, n) !! arena
    ensures hp !in ring && hp !in live
    ensures Good(base, ring, size[hp := n], live[hp := n], arena + Units(hp, n))
  {
    hide Units;
    forall u: nat | u in arena ensures !(hp <= u < hp + n) {
    }
    HeadersInArena(base, ring, size, live, arena);
    var size', live' := size[hp := n], live[hp := n];
    assert hp in Units(hp, n);
    forall j | 1 <= j < |ring| - 1 ensures Gap(ring, size', j) {
      assert Gap(ring, size, j);
    }
    forall a | a in live ensures Apart(a, live[a], hp, n) {
      LiveHere(live, a, a);
      assert a <= hp < a + live[a] ==> InLive(live, hp);
      ApartByUnits(a, live[a], hp, n);
    }
    forall u: nat
      ensures InFree(ring, size', u) <==> InFree(ring, size, u)
      ensures !(InFree(ring, size', u) && InLive(live', u))
      ensures u in arena + Units(hp, n) <==> InFree(ring, size', u) || InLive(live', u)
    {
      SameFree(ring, size, size', u);
      UnitsDisjoint(base, ring, size, live, u);
      LiveWith(live, hp, n, u);
    }
    GoodByUnits(base, ring, size', live', arena + Units(hp, n));
  }

  lemma SameFree(ring: seq<nat>, size: map<nat, nat>, size': map<nat, nat>, u: nat)
    requires forall k | 0 <= k < |ring| :: ring[k] in size && ring[k] in size' && size[ring[k]] == size'[ring[k]]
    ensures InFree(ring, size', u) <==> InFree(ring, size, u)
  {
    if InFree(ring, size', u) {
      var k :| 1 <= k < |ring| && InBlock(ring, size', k, u);
      assert InBlock(ring, size, k, u);
    }
    if InFree(ring, size, u) {
      var k :| 1 <= k < |ring| && InBlock(ring, size, k, u);
      assert InBlock(ring, size', k, u);
    }
  }

  lemma HeadersInArena(base: nat, ring: seq<nat>, size: map<nat, nat>, live: map<nat, nat>, arena: set<nat>)
    requires Good(base, ring, size, live, arena)
    ensures forall k | 1 <= k < |ring| :: ring[k] in arena
    ensures forall a | a in live :: a in arena
    ensures forall a | a in live :: a !in ring
  {
    forall k | 1 <= k < |ring| ensures ring[k] in arena {
      assert InBlock(ring, size, k, ring[k]);
      assert InFree(ring, size, ring[k]);
    }
    forall a | a in live ensures a in arena && a !in ring {
      LiveHere(live, a, a);
      UnitsDisjoint(base, ring, size, live, a);
      forall k | 1 <= k < |ring| ensures ring[k] != a {
        assert InBlock(ring, size, k, ring[k]);
      }
    }
  }

  // ------------------------------------------------------------------ walking around

  ghost function Around(ring: seq<nat>, x: nat): (r: nat)
    requires x < 2 * |ring|
  {
    if x < |ring| then ring[x] else ring[x - |ring|]
  }

  /** The last block below bp. */
  ghost function Below(ring: seq<nat>, bp: nat): (k: nat)
    requires |ring| >= 1 && Ascending(ring) && ring[0] < bp
    ensures k < |ring| && ring[k] < bp && forall j | k < j < |ring| :: bp <= ring[j]
  {
    if ring[|ring| - 1] < bp then |ring| - 1 else Below(ring[..|ring| - 1], bp)
  }

  /** The search of free ends at ring[k]: bp lies between it and the next block, or past the wrap. */
  ghost predicate Stops(ring: seq<nat>, k: nat, bp: nat)
    requires k < |ring|
  {
    var p, next := ring[k], After(ring, k);
    (bp > p && bp < next) || (p >= next && (bp > p || bp < next))
  }

  lemma StopsAt(ring: seq<nat>, k: nat, bp: nat)
    requires |ring| >= 1 && Ascending(ring) && ring[0] < bp && bp !in ring && k < |ring|
    ensures Stops(ring, k, bp) <==> k == Below(ring, bp)
  {
  }

  lemma HeaderFacts(base: nat, ring: seq<nat>, size: map<nat, nat>, live: map<nat, nat>, bp: nat)
    requires FreeOk(base, ring, size) && LiveOk(base, ring, size, live) && bp in live
    ensures base < bp && bp in size && size[bp] == live[bp] && ring[0] == base && Ascending(ring)
    ensures forall a | a in live :: a in size && size[a] == live[a]
  {
  }

  /** A live block fits where the search finds its place. */
  lemma FreeFits(base: nat, ring: seq<nat>, size: map<nat, nat>, live: map<nat, nat>, bp: nat)
    requires FreeOk(base, ring, size) && LiveOk(base, ring, size, live) && bp in live && bp !in ring
    ensures Fits(ring, size, Below(ring, bp), bp)
  {
  }

  lemma TouchingIsFree(base: nat, ring: seq<nat>, size: map<nat, nat>, k: nat)
    requires FreeTouching(base, ring, size, k) && k + 1 < |ring| && ring[k] + size[ring[k]] != ring[k + 1]
    ensures FreeOk(base, ring, size)
  {
  }

  lemma HeadersKept(base: nat, ring0: seq<nat>, size0: map<nat, nat>, live0: map<nat, nat>, arena: set<nat>, bp: nat, size: map<nat, nat>)
    requires Good(base, ring0, size0, live0, arena) && bp in live0
    requires forall a | a in live0 && a != bp :: a in size && size[a] == live0[a]
    ensures HeadersOk(base, size, live0 - {bp})
  {
  }

  /** How many units morecore asks sbrk for. */
  function CoreSize(nunits: nat): (r: nat)
    ensures r >= nunits && r >= MINCORE && (r == nunits || r == MINCORE)
  {
    if nunits < MINCORE then MINCORE else nunits
  }

  lemma GrowKeepsFree(base: nat, ring: seq<nat>, size: map<nat, nat>, hp: nat, n: nat)
    requires FreeOk(base, ring, size) && hp !in ring
    ensures forall u: nat :: InFree(ring, size[hp := n], u) <==> InFree(ring, size, u)
  {
    forall u: nat {
      SameFree(ring, size, size[hp := n], u);
    }
  }

  lemma BlockIsFree(ring: seq<nat>, size: map<nat, nat>, k: nat)
    requires 1 <= k < |ring| && ring[k] in size
    ensures forall u: nat | ring[k] <= u < ring[k] + size[ring[k]] :: InFree(ring, size, u)
  {
    forall u: nat | ring[k] <= u < ring[k] + size[ring[k]] ensures InFree(ring, size, u) {
      assert InBlock(ring, size, k, u);
    }
  }

  lemma NewHeaders(base: nat, ring: seq<nat>, size: map<nat, nat>, live: map<nat, nat>, arena: set<nat>,
                   b: nat, n: nat, size': map<nat, nat>)
    requires Good(base, ring, size, live, arena) && n >= 1 && b > base && InFree(ring, size, b) && b in size' && size'[b] == n
    requires forall a | a in size && a !in ring && a != b :: a in size' && size'[a] == size[a]
    ensures b !in live && HeadersOk(base, size', live[b := n])
  {
  }

  lemma LinkAt(ptr: map<nat, nat>, ring: seq<nat>, k: nat)
    requires Linked(ptr, ring) && k < |ring|
    ensures ring[k] in ptr && ptr[ring[k]] == After(ring, k)
  {
    assert Link(ptr, ring, k);
  }

  /** A live block is above base and not in the free list. */
  lemma FreeStarts(base: nat, ring: seq<nat>, size: map<nat, nat>, live: map<nat, nat>, arena: set<nat>, bp: nat)
    requires Good(base, ring, size, live, arena) && bp in live
    ensures |ring| >= 1 && ring[0] < bp && bp !in ring && Ascending(ring) && bp in size
  {
    hide InFree, InLive;
    HeadersInArena(base, ring, size, live, arena);
    HeaderFacts(base, ring, size, live, bp);
  }

  /** The first half of free: bp is in its place in the list, joined with the block above if they
      touch, and exactly its units have become free. */
  lemma FreeInserts(base: nat, ptr: map<nat, nat>, ring: seq<nat>, size: map<nat, nat>, live: map<nat, nat>, arena: set<nat>,
                    bp: nat, k: nat, up: bool)
    requires Good(base, ring, size, live, arena) && Linked(ptr, ring) && bp in live && k == Below(ring, bp) && k < |ring|
    requires bp in size && ring[k] in ptr && (up <==> bp + size[bp] == ptr[ring[k]])
    ensures up ==> k + 1 < |ring| && ptr[ring[k]] == ring[k + 1] && ring[k + 1] in size && ring[k + 1] in ptr
    ensures var ring', size' := WithNext(ring, k, bp, up), SizesUp(ring, size, k, bp, up);
            var ptr' := ptr[bp := if up then ptr[ring[k + 1]] else ptr[ring[k]]];
            && FreeTouching(base, ring', size', k) && Linked(ptr'[ring[k] := bp], ring')
            && (forall u: nat :: InFree(ring', size', u) <==> InFree(ring, size, u) || bp <= u < bp + live[bp])
            && size'[bp] >= live[bp]
            && (forall a | a in live && a != bp :: a in size' && a !in ring' && size'[a] == live[a])
  {
    hide InFree, InLive, WithNext, Below, Conserved;
    HeadersInArena(base, ring, size, live, arena);
    HeaderFacts(base, ring, size, live, bp);
    FreeFits(base, ring, size, live, bp);
    assert Link(ptr, ring, k);
    assert up <==> k + 1 < |ring| && bp + size[bp] == ring[k + 1];
    if up {
      assert Link(ptr, ring, k + 1);
    }
    InsertUp(base, ring, size, k, bp, up);
    InsertLinked(ptr, ring, k, bp, up);
    forall u: nat {
      InsertUpUnits(base, ring, size, k, bp, up, u);
    }
  }

  class Heap {
    const base: nat         // the address of the static header `base`
    var ptr: map<nat, nat>
    var size: map<nat, nat>
    var freep: nat          // 0 before the first malloc

    ghost var ring: seq<nat>       // base and the free blocks, in list order from base
    ghost var live: map<nat, nat>  // the allocated blocks and their sizes
    ghost var arena: set<nat>      // all units ever obtained from sbrk

    constructor (base: nat)
      requires base > 0
      ensures this.base == base && Valid() && live == map[] && arena == {}
    {
      this.base := base;
      ptr, size, freep := map[], map[], 0;
      ring, live, arena := [], map[], {};
    }

    ghost predicate Valid()
      reads this
    {
      && base > 0
      && if freep == 0 then ring == [] && live == map[] && arena == {}
         else freep in ring && Linked(ptr, ring) && Good(base, ring, size, live, arena)
    }

    /** The search loop of free: the block after which bp belongs. */
    method FindSlot(bp: nat) returns (p: nat, ghost k: nat)
      requires freep in ring && Linked(ptr, ring) && Ascending(ring) && |ring| >= 1 && ring[0] < bp && bp !in ring
      ensures k == Below(ring, bp) && p == ring[k]
    {
      hide Linked, Ascending;
      k := Below(ring, bp);
      ghost var n := |ring|;
      ghost var at :| 0 <= at < n && ring[at] == freep;
      ghost var left := if k >= at then k - at else k + n - at;
      p := freep;
      LinkAt(ptr, ring, at);
      StopsAt(ring, at, bp);
      while !(bp > p && bp < ptr[p])
        invariant 0 <= at < n && 0 <= left < n && (k == at + left || k == at + left - n)
        invariant p == ring[at] && Link(ptr, ring, at)
        invariant Stops(ring, at, bp) <==> at == k
        decreases left
      {
        if p >= ptr[p] && (bp > p || bp < ptr[p]) {
          break;
        }
        p := ptr[p];
        at, left := if at + 1 < n then at + 1 else 0, left - 1;
        LinkAt(ptr, ring, at);
        StopsAt(ring, at, bp);
      }
    }

    /** free: give live block bp back. Afterwards some free block is at least as large as it was. */
    method Free(bp: nat)
      requires Valid() && freep != 0 && bp in live
      modifies this
      ensures Valid() && freep != 0
      ensures live == old(live) - {bp} && arena == old(arena)
      ensures forall u: nat :: InFree(ring, size, u) <==> old(InFree(ring, size, u)) || bp <= u < bp + old(live[bp])
      ensures exists g | 1 <= g < |ring| :: ring[g] in size && size[ring[g]] >= old(live[bp])
      ensures freep in old(ring) && freep < bp && forall q | q in old(ring) :: q <= freep || q > bp
    {
      hide InFree, InLive, WithNext, WithoutNext, Below, LiveOk, Conserved, FreeOk, FreeTouching, Linked;
      FreeStarts(base, ring, size, live, arena, bp);
      ghost var ring0, size0, live0 := ring, size, live;
      var p, k := FindSlot(bp);
      LinkAt(ptr, ring, k);
      Neighbours(ring, bp);
      var up := bp + size[bp] == ptr[p];
      FreeInserts(base, ptr, ring, size, live, arena, bp, k, up);
      if up {
        size := size[bp := size[bp] + size[ptr[p]]];
        ptr := ptr[bp := ptr[ptr[p]]];
      } else {
        ptr := ptr[bp := ptr[p]];
      }
      ring := WithNext(ring, k, bp, up);
      FinishFree(p, k, bp, ring0, size0, live0);
    }

    /** Join the inserted block with the one before it, if they touch. */
    method FinishFree(p: nat, ghost k: nat, bp: nat, ghost ring0: seq<nat>, ghost size0: map<nat, nat>, ghost live0: map<nat, nat>)
      requires base > 0 && k + 1 < |ring| && p == ring[k] && bp == ring[k + 1] && live == live0 && bp in live0
      requires Good(base, ring0, size0, live0, arena)
      requires FreeTouching(base, ring, size, k) && bp in ptr && Linked(ptr[p := bp], ring)
      requires size[bp] >= live0[bp] && forall a | a in live0 && a != bp :: a in size && a !in ring && size[a] == live0[a]
      requires forall u: nat :: InFree(ring, size, u) <==> InFree(ring0, size0, u) || bp <= u < bp + live0[bp]
      modifies this
      ensures Valid() && freep != 0
      ensures live == live0 - {bp} && arena == old(arena)
      ensures forall u: nat :: InFree(ring, size, u) <==> InFree(ring0, size0, u) || bp <= u < bp + live0[bp]
      ensures exists g | 1 <= g < |ring| :: ring[g] in size && size[ring[g]] >= live0[bp]
      ensures freep == p
    {
      hide InFree, InLive, WithoutNext, LiveOk, Conserved, Linked;
      if p + size[p] == bp {
        MergeDown(base, ring, size, k);
        MergeLinked(ptr[p := bp], ring, k);
        forall u: nat {
          MergeDownUnits(base, ring, size, k, u);
        }
        LinkAt(ptr[p := bp], ring, k + 1);
        assert ptr[p := bp][p := ptr[bp]] == ptr[p := ptr[bp]];
        size := size[p := size[p] + size[bp]];
        ptr := ptr[p := ptr[bp]];
        ring := WithoutNext(ring, k);
        assert ring[k] == p;
      } else {
        TouchingIsFree(base, ring, size, k);
        ptr := ptr[p := bp];
        assert ring[k + 1] == bp;
      }
      assert ring[k] == p && p in ring && ring[0] <= p;
      freep := p;
      live := live - {bp};
      HeadersKept(base, ring0, size0, live0, arena, bp, size);
      FreeKeepsGood(base, ring0, size0, live0, arena, bp, ring, size);
    }

    /** morecore: add a region from sbrk to the free list. brk is what sbrk returns. */
    method Morecore(nunits: nat, brk: Option<nat>) returns (ok: bool)
      requires Valid() && freep != 0 && nunits >= 1
      requires brk.Some? ==> brk.value > base && Units(brk.value, CoreSize(nunits)) !! arena
      modifies this
      ensures Valid() && freep != 0 && live == old(live)
      ensures ok == brk.Some?
      ensures !ok ==> unchanged(this)
      ensures ok ==>
                && arena == old(arena) + Units(brk.value, CoreSize(nunits))
                && (forall u: nat :: InFree(ring, size, u) <==> old(InFree(ring, size, u)) || u in Units(brk.value, CoreSize(nunits)))
                && SomeFits(ring, size, nunits)
    {
      hide InFree, InLive, LiveOk, Conserved, Linked;
      var nu := if nunits < MINCORE then MINCORE else nunits;
      if brk.None? {
        return false;
      }
      var hp := brk.value;
      GrowKeepsGood(base, ring, size, live, arena, hp, nu);
      GrowKeepsFree(base, ring, size, hp, nu);
      size := size[hp := nu];
      live := live[hp := nu];
      arena := arena + Units(hp, nu);
      Free(hp);
      assert live == old(live);
      return true;
    }

    /** Hand out nunits of free block p, which follows prevp: all of it, or its tail end. */
    method Take(prevp: nat, p: nat, nunits: nat, ghost k: nat) returns (b: nat)
      requires Valid() && freep != 0 && nunits >= 1
      requires 1 <= k < |ring| && p == ring[k] && prevp == ring[k - 1] && size[p] >= nunits
      modifies this
      ensures Valid() && freep != 0
      ensures b !in old(live) && live == old(live)[b := nunits] && arena == old(arena)
      ensures forall u: nat | b <= u < b + nunits :: old(InFree(ring, size, u))
      ensures forall u: nat :: InFree(ring, size, u) <==> old(InFree(ring, size, u)) && !(b <= u < b + nunits)
      ensures freep == prevp && b == p + old(size[p]) - nunits
    {
      hide InFree, InLive, LiveOk, Conserved, Linked;
      if size[p] == nunits {
        TakeAll(prevp, p, k);
        b := p;
      } else {
        b := TakeEnd(prevp, p, nunits, k);
      }
    }

    /** Unlink a block that fits exactly. */
    method TakeAll(prevp: nat, p: nat, ghost k: nat)
      requires Valid() && freep != 0
      requires 1 <= k < |ring| && p == ring[k] && prevp == ring[k - 1] && p in size && size[p] >= 1
      modifies this
      ensures Valid() && freep != 0
      ensures p !in old(live) && live == old(live)[p := old(size[p])] && arena == old(arena)
      ensures forall u: nat | p <= u < p + old(size[p]) :: old(InFree(ring, size, u))
      ensures forall u: nat :: InFree(ring, size, u) <==> old(InFree(ring, size, u)) && !(p <= u < p + old(size[p]))
      ensures freep == prevp
    {
      hide InFree, InLive, WithoutNext, LiveOk, Conserved, Linked;
      ghost var ring0, size0, live0, nunits := ring, size, live, size[p];
      LinkAt(ptr, ring, k);
      HeadersInArena(base, ring, size, live, arena);
      BlockIsFree(ring, size, k);
      TakeWhole(base, ring, size, k);
      forall u: nat
        ensures InFree(WithoutNext(ring, k - 1), size, u) <==> InFree(ring, size, u) && !(p <= u < p + nunits)
      {
        TakeWholeUnits(base, ring, size, k, u);
      }
      MergeLinked(ptr, ring, k - 1);
      ptr := ptr[prevp := ptr[p]];
      ring := WithoutNext(ring, k - 1);
      assert ring[k - 1] == prevp;
      freep := prevp;
      live := live[p := nunits];
      NewHeaders(base, ring0, size0, live0, arena, p, nunits, size);
      AllocKeepsGood(base, ring0, size0, live0, arena, p, nunits, ring, size);
    }

    /** Cut nunits off the end of a larger block. */
    method TakeEnd(prevp: nat, p: nat, nunits: nat, ghost k: nat) returns (b: nat)
      requires Valid() && freep != 0 && nunits >= 1
      requires 1 <= k < |ring| && p == ring[k] && prevp == ring[k - 1] && p in size && size[p] > nunits
      modifies this
      ensures Valid() && freep != 0
      ensures b !in old(live) && live == old(live)[b := nunits] && arena == old(arena)
      ensures forall u: nat | b <= u < b + nunits :: old(InFree(ring, size, u))
      ensures forall u: nat :: InFree(ring, size, u) <==> old(InFree(ring, size, u)) && !(b <= u < b + nunits)
      ensures freep == prevp && b == p + old(size[p]) - nunits
    {
      hide InFree, InLive, LiveOk, Conserved, Linked;
      ghost var size0, live0 := size, live;
      HeadersInArena(base, ring, size, live, arena);
      BlockIsFree(ring, size, k);
      TakeTail(base, ring, size, k, nunits);
      var rest := size[p] - nunits;
      forall u: nat
        ensures InFree(ring, Cut(size, p, nunits), u) <==> InFree(ring, size, u) && !(p + rest <= u < p + rest + nunits)
      {
        TakeTailUnits(base, ring, size, k, nunits, u);
      }
      size := size[p := rest];
      b := p + rest;
      size := size[b := nunits];
      assert size == Cut(size0, p, nunits);
      freep := prevp;
      live := live[b := nunits];
      NewHeaders(base, ring, size0, live0, arena, b, nunits, size);
      AllocKeepsGood(base, ring, size0, live0, arena, b, nunits, ring, size);
    }

    /** The first malloc makes a list of just the header base. */
    method InitList()
      requires Valid()
      modifies this
      ensures Valid() && freep != 0 && live == old(live) && arena == old(arena)
      ensures old(freep) != 0 ==> unchanged(this)
      ensures forall u: nat :: InFree(ring, size, u) <==> old(InFree(ring, size, u))
      ensures forall n: nat :: NoneFits(ring, size, n) ==> NoneFits(old(ring), old(size), n)
    {
      if freep == 0 {
        ptr, size, freep := ptr[base := base], size[base := 0], base;
        ring := [base];
        assert Link(ptr, ring, 0);
      }
    }

    /** Take from the block the walk is at. */
    method TakeHere(prevp: nat, p: nat, nunits: nat, ghost f: nat, ghost i: nat, ghost ring0: seq<nat>, ghost size0: map<nat, nat>,
                    ghost grown: bool, ghost more: set<nat>) returns (b: nat)
      requires Valid() && freep != 0 && nunits >= 1 && f < |ring| && 1 <= i <= |ring|
      requires p == Around(ring, f + i) && prevp == Around(ring, f + i - 1) && p in size && size[p] >= nunits
      requires Grew(ring0, size0, ring, size, grown, more, nunits)
      modifies this
      ensures Valid()
      ensures b !in old(live) && live == old(live)[b := nunits] && arena == old(arena)
      ensures Taken(ring0, size0, ring, size, more, b, nunits)
      ensures grown ==> NoneFits(ring0, size0, nunits)
      ensures freep == prevp && b == p + old(size[p]) - nunits
    {
      hide InFree, InLive, LiveOk, Conserved, Grew, Taken, NoneFits, SomeFits, Linked;
      ghost var ring1, size1 := ring, size;
      b := Take(prevp, p, nunits, if f + i < |ring| then f + i else f + i - |ring|);
      GrewThenTook(ring0, size0, ring1, size1, ring, size, grown, more, b, nunits);
    }

    /** Get more units, when nothing fitted. */
    method Grow(nunits: nat, brk: Option<nat>, ghost ring0: seq<nat>, ghost size0: map<nat, nat>) returns (ok: bool)
      requires Valid() && freep != 0 && nunits >= 1
      requires brk.Some? ==> brk.value > base && Units(brk.value, CoreSize(nunits)) !! arena
      requires Grew(ring0, size0, ring, size, false, {}, nunits) && NoneFits(ring0, size0, nunits)
      modifies this
      ensures Valid() && freep != 0 && live == old(live)
      ensures ok == brk.Some?
      ensures !ok ==> unchanged(this)
      ensures ok ==>
                && arena == old(arena) + Units(brk.value, CoreSize(nunits))
                && Grew(ring0, size0, ring, size, true, Units(brk.value, CoreSize(nunits)), nunits)
    {
      hide InFree, InLive, LiveOk, Conserved, Grew, NoneFits, SomeFits, Linked, Units, CoreSize, FreeOk;
      ghost var ring1, size1 := ring, size;
      ok := Morecore(nunits, brk);
      if ok {
        GrewNow(ring0, size0, ring1, size1, ring, size, Units(brk.value, CoreSize(nunits)), nunits);
      }
    }

    /** malloc. brk is what sbrk would return if asked; it is asked at most once, and only when no
        free block is large enough. None means no block was large enough and sbrk failed. */
    method Malloc(nbytes: nat, brk: Option<nat>) returns (r: Option<nat>, ghost grown: bool)
      requires Valid()
      requires brk.Some? ==> brk.value > base && Units(brk.value, CoreSize(UnitsFor(nbytes))) !! arena
      modifies this
      ensures Valid()
      ensures grown ==> brk.Some? && NoneFits(old(ring), old(size), UnitsFor(nbytes))
      ensures arena == old(arena) + NewUnits(grown, brk, nbytes)
      ensures r.None? ==> !grown && brk.None? && live == old(live) && NoneFits(ring, size, UnitsFor(nbytes))
      ensures r.Some? ==>
                && r.value !in old(live) && live == old(live)[r.value := UnitsFor(nbytes)]
                && Taken(old(ring), old(size), ring, size, NewUnits(grown, brk, nbytes), r.value, UnitsFor(nbytes))
      ensures r.Some? && !grown && old(freep) != 0 ==>
                NextFit(old(ring), old(size), old(freep), UnitsFor(nbytes), r.value, freep)
    {
      hide InFree, InLive, LiveOk, Conserved, Units, CoreSize, Grew, Taken, NoneFits, SomeFits, Linked, FreeOk, Around, Walked, NextFit;
      var nunits := (nbytes + HEADER - 1) / HEADER + 1;
      ghost var ring0, size0, live0, arena0 := ring, size, live, arena;
      InitList();
      NotGrown(ring0, size0, ring, size, nunits);
      grown := false;
      ghost var f, i := Find(ring, freep), 1;
      Onward(base, ptr, ring, size, f, 0, freep, nunits);
      var prevp := freep;
      var p := ptr[prevp];
      while true
        invariant Valid() && freep != 0 && live == live0
        invariant 0 <= f < |ring| && 1 <= i <= |ring| && ring[f] == freep && Walked(ring, size, f, i, nunits)
        invariant p == Around(ring, f + i) && prevp == Around(ring, f + i - 1)
        invariant arena == arena0 + NewUnits(grown, brk, nbytes)
        invariant grown ==> brk.Some?
        invariant !grown && old(freep) != 0 ==> ring == old(ring) && size == old(size) && freep == old(freep)
        invariant Grew(ring0, size0, ring, size, grown, NewUnits(grown, brk, nbytes), nunits)
        decreases if grown then 0 else 1, |ring| - i
      {
        HasSize(base, ring, size, f + i);
        if size[p] >= nunits {
          FitsNext(ring, size, f, i, nunits);
          var b := TakeHere(prevp, p, nunits, f, i, ring0, size0, grown, NewUnits(grown, brk, nbytes));
          return Some(b), grown;
        }
        if p == freep {
          FullCircle(base, ring, size, f, i, nunits);
          FirstTime(ring0, size0, ring, size, grown, NewUnits(grown, brk, nbytes), nunits);
          var ok := Grow(nunits, brk, ring0, size0);
          if !ok {
            return None, false;
          }
          grown := true;
          f, i := Find(ring, freep), 0;
          p := freep;
        } else {
          NotYetAround(ring, f, i);
        }
        Onward(base, ptr, ring, size, f, i, p, nunits);
        prevp, p := p, ptr[p];
        i := i + 1;
      }
    }
  }

  ghost function Find(ring: seq<nat>, p: nat): (f: nat)
    requires p in ring
    ensures f < |ring| && ring[f] == p
  {
    var f :| 0 <= f < |ring| && ring[f] == p;
    f
  }

  lemma Neighbours(ring: seq<nat>, bp: nat)
    requires Ascending(ring) && |ring| >= 1 && ring[0] < bp && bp !in ring
    ensures var p := ring[Below(ring, bp)]; p < bp && forall q | q in ring :: q <= p || q > bp
  {
  }

  lemma HasSize(base: nat, ring: seq<nat>, size: map<nat, nat>, x: nat)
    requires FreeOk(base, ring, size) && x < 2 * |ring|
    ensures Around(ring, x) in size
  {
  }

  lemma NotYetAround(ring: seq<nat>, f: nat, i: nat)
    requires f < |ring| && 1 <= i <= |ring| && Around(ring, f + i) != ring[f]
    ensures i < |ring|
  {
  }

  /** One step of the walk. */
  lemma Onward(base: nat, ptr: map<nat, nat>, ring: seq<nat>, size: map<nat, nat>, f: nat, i: nat, p: nat, n: nat)
    requires Linked(ptr, ring) && FreeOk(base, ring, size) && f < |ring| && i < |ring|
    requires if i == 0 then p == ring[f] else p == Around(ring, f + i) && Walked(ring, size, f, i, n) && size[p] < n
    ensures p == Around(ring, f + i) && p in ptr && ptr[p] == Around(ring, f + i + 1) && Walked(ring, size, f, i + 1, n)
  {
    assert Link(ptr, ring, if f + i < |ring| then f + i else f + i - |ring|);
  }

  /** Blocks f+1 .. f+i-1, counted around, are too small for n units. */
  ghost predicate Walked(ring: seq<nat>, size: map<nat, nat>, f: nat, i: nat, n: nat) {
    && f < |ring| && 1 <= i <= |ring|
    && forall x | f < x < f + i :: Around(ring, x) in size && size[Around(ring, x)] < n
  }

  /** From the block `start` around the ring, the first block of at least n units gives its end, b, and
      the block before it is `last`. */
  ghost predicate NextFit(ring: seq<nat>, size: map<nat, nat>, start: nat, n: nat, b: nat, last: nat) {
    exists f: nat, i: nat | Walked(ring, size, f, i, n) ::
      && ring[f] == start && last == Around(ring, f + i - 1)
      && var p := Around(ring, f + i); p in size && size[p] >= n && b == p + size[p] - n
  }

  lemma FitsNext(ring: seq<nat>, size: map<nat, nat>, f: nat, i: nat, n: nat)
    requires Walked(ring, size, f, i, n)
    requires var p := Around(ring, f + i); p in size && size[p] >= n
    ensures var p := Around(ring, f + i); NextFit(ring, size, ring[f], n, p + size[p] - n, Around(ring, f + i - 1))
  {
  }

  ghost predicate NoneFits(ring: seq<nat>, size: map<nat, nat>, n: nat) {
    forall k | 1 <= k < |ring| :: ring[k] in size && size[ring[k]] < n
  }

  ghost predicate SomeFits(ring: seq<nat>, size: map<nat, nat>, n: nat) {
    exists k | 1 <= k < |ring| :: ring[k] in size && size[ring[k]] >= n
  }

  /** The free units are those of the start and `more`; the heap grew only if nothing fitted. */
  ghost predicate Grew(ring0: seq<nat>, size0: map<nat, nat>, ring: seq<nat>, size: map<nat, nat>, grown: bool, more: set<nat>, n: nat) {
    && (forall u: nat :: InFree(ring, size, u) <==> InFree(ring0, size0, u) || u in more)
    && (if grown then SomeFits(ring, size, n) && NoneFits(ring0, size0, n)
        else NoneFits(ring, size, n) ==> NoneFits(ring0, size0, n))
  }

  /** Block b of n units came out of the free units of the start and `more`; the rest is free now. */
  ghost predicate Taken(ring0: seq<nat>, size0: map<nat, nat>, ring: seq<nat>, size: map<nat, nat>, more: set<nat>, b: nat, n: nat) {
    && (forall u: nat | b <= u < b + n :: InFree(ring0, size0, u) || u in more)
    && (forall u: nat :: InFree(ring, size, u) <==> (InFree(ring0, size0, u) || u in more) && !(b <= u < b + n))
  }

  lemma NotGrown(ring0: seq<nat>, size0: map<nat, nat>, ring: seq<nat>, size: map<nat, nat>, n: nat)
    requires forall u: nat :: InFree(ring, size, u) <==> InFree(ring0, size0, u)
    requires NoneFits(ring, size, n) ==> NoneFits(ring0, size0, n)
    ensures Grew(ring0, size0, ring, size, false, {}, n)
  {
  }

  lemma FirstTime(ring0: seq<nat>, size0: map<nat, nat>, ring: seq<nat>, size: map<nat, nat>, grown: bool, more: set<nat>, n: nat)
    requires Grew(ring0, size0, ring, size, grown, more, n)
    requires forall k | 0 <= k < |ring| :: ring[k] in size && size[ring[k]] < n
    ensures !grown && NoneFits(ring, size, n) && NoneFits(ring0, size0, n)
  {
  }

  lemma GrewNow(ring0: seq<nat>, size0: map<nat, nat>, ring1: seq<nat>, size1: map<nat, nat>, ring: seq<nat>, size: map<nat, nat>, more: set<nat>, n: nat)
    requires Grew(ring0, size0, ring1, size1, false, {}, n) && NoneFits(ring0, size0, n) && SomeFits(ring, size, n)
    requires forall u: nat :: InFree(ring, size, u) <==> InFree(ring1, size1, u) || u in more
    ensures Grew(ring0, size0, ring, size, true, more, n)
  {
  }

  lemma GrewThenTook(ring0: seq<nat>, size0: map<nat, nat>, ring1: seq<nat>, size1: map<nat, nat>, ring: seq<nat>, size: map<nat, nat>,
                     grown: bool, more: set<nat>, b: nat, n: nat)
    requires Grew(ring0, size0, ring1, size1, grown, more, n)
    requires forall u: nat | b <= u < b + n :: InFree(ring1, size1, u)
    requires forall u: nat :: InFree(ring, size, u) <==> InFree(ring1, size1, u) && !(b <= u < b + n)
    ensures Taken(ring0, size0, ring, size, more, b, n)
    ensures grown ==> NoneFits(ring0, size0, n)
  {
  }

  /** The block size, header included, that malloc uses for a request; 64-bit arithmetic. */
  function UnitsFor(nbytes: nat): (n: nat)
    ensures n >= 1 && (n - 1) * HEADER >= nbytes && (nbytes > 0 ==> (n - 2) * HEADER < nbytes)
  {
    (nbytes + HEADER - 1) / HEADER + 1
  }

  ghost function NewUnits(grown: bool, brk: Option<nat>, nbytes: nat): (r: set<nat>) {
    if grown && brk.Some? then Units(brk.value, CoreSize(UnitsFor(nbytes))) else {}
  }

  /** Once the walk is back at freep, it has seen every block. */
  lemma FullCircle(base: nat, ring: seq<nat>, size: map<nat, nat>, f: nat, i: nat, nunits: nat)
    requires FreeOk(base, ring, size) && Walked(ring, size, f, i, nunits)
    requires Around(ring, f + i) == ring[f] && size[ring[f]] < nunits
    ensures i == |ring|
    ensures forall k | 0 <= k < |ring| :: ring[k] in size && size[ring[k]] < nunits
  {
    forall k | 0 <= k < |ring| && k != f ensures size[ring[k]] < nunits {
      assert Around(ring, if k > f then k else k + |ring|) == ring[k];
    }
  }
}
