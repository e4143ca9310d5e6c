/** The block layer of kernel/fs.c as values: the bitmap, the block map of an inode with its
    indirect block, and who owns each block. */
module FsModel {
  import opened Blocks

  const BPB := 8192        // bitmap bits per block
  const NDIRECT := 12
  const NINDIRECT := 256
  const MAXFILE := 268     // NDIRECT + NINDIRECT

  /** The superblock: inode blocks, bitmap blocks and data blocks follow each other. */
  datatype Super = Super(size: nat, inodestart: nat, bmapstart: nat, datastart: nat)

  ghost predicate ValidSuper(sb: Super) {
    && sb.inodestart < sb.bmapstart && sb.datastart <= sb.size < UINT_LIMIT
    && (sb.size > 0 ==> sb.bmapstart + (sb.size - 1) / BPB < sb.datastart)
    && 0 < sb.datastart
  }

  // ------------------------------------------------------------------ bitmap

  /** 1 << k */
  function Mask(k: nat): (m: bv8)
    requires k < 8
  {
    if k == 0 then 1 else if k == 1 then 2 else if k == 2 then 4 else if k == 3 then 8
    else if k == 4 then 16 else if k == 5 then 32 else if k == 6 then 64 else 128
  }

  function Bits(x: Byte): (y: bv8) {
    x as bv8
  }

  function Bytes(y: bv8): (x: Byte) {
    y as int
  }

  predicate BitOf(x: Byte, k: nat)
    requires k < 8
  {
    Bits(x) & Mask(k) != 0
  }

  /** x | 1 << k, or x & ~(1 << k) */
  function Masked(x: bv8, k: nat, v: bool): (r: bv8)
    requires k < 8
  {
    if v then x | Mask(k) else x & !Mask(k)
  }

  function WithBit(x: Byte, k: nat, v: bool): (r: Byte)
    requires k < 8
  {
    Bytes(Masked(Bits(x), k, v))
  }

  lemma MaskIsShift(k: nat)
    requires k < 8
    ensures Mask(k) == 1 << k
  {
  }

  lemma MaskedBits(x: bv8, k: nat, v: bool, j: nat)
    requires k < 8 && j < 8
    ensures Masked(x, k, v) & Mask(j) != 0 <==> if j == k then v else x & Mask(j) != 0
  {
  }

  lemma BitsOfBytes(y: bv8)
    ensures Bits(Bytes(y)) == y
  {
  }

  lemma BitWithBit(x: Byte, k: nat, v: bool, j: nat)
    requires k < 8 && j < 8
    ensures BitOf(WithBit(x, k, v), j) == if j == k then v else BitOf(x, j)
  {
    hide Mask, Masked, Bits, Bytes;
    MaskedBits(Bits(x), k, v, j);
    BitsOfBytes(Masked(Bits(x), k, v));
  }

  /** The bitmap block with the bit of block b. */
  function BBlock(sb: Super, b: nat): (r: nat) {
    b / BPB + sb.bmapstart
  }

  /** Block b is marked in use. */
  predicate Bit(sb: Super, mem: Disk, b: nat) {
    BitOf(At(mem, BBlock(sb, b))[b % BPB / 8], b % BPB % 8)
  }

  /** The bitmap on disk: one bit a block, BSIZE * 8 to a bitmap block, low bits first. */
  lemma BitmapFormat(sb: Super, mem: Disk, b: nat)
    ensures Bit(sb, mem, b) <==> At(mem, sb.bmapstart + b / (BSIZE * 8))[b % (BSIZE * 8) / 8] as bv8 & (1 << (b % 8)) != 0
  {
    MaskIsShift(b % 8);
  }

  function BitBlock(sb: Super, mem: Disk, b: nat, v: bool): (r: Block) {
    var blk, k := At(mem, BBlock(sb, b)), b % BPB;
    blk[k / 8 := WithBit(blk[k / 8], k % 8, v)]
  }

  function PutBit(sb: Super, mem: Disk, b: nat, v: bool): (r: Disk) {
    mem[BBlock(sb, b) := BitBlock(sb, mem, b, v)]
  }

  /** Marking block b changes the mark of no other block. */
  lemma BitPutBit(sb: Super, mem: Disk, b: nat, v: bool, c: nat)
    ensures Bit(sb, PutBit(sb, mem, b, v), c) == if c == b then v else Bit(sb, mem, c)
  {
    hide BitOf, WithBit;
    if BBlock(sb, c) == BBlock(sb, b) {
      var k, j := b % BPB, c % BPB;
      if k / 8 == j / 8 {
        BitWithBit(At(mem, BBlock(sb, b))[k / 8], k % 8, v, j % 8);
      }
    }
  }

  // ------------------------------------------------------------------ inodes and owners

  /** What the model keeps of an inode: its size and its NDIRECT+1 block addresses. */
  datatype Inode = Inode(size: Uint, addrs: seq<Uint>)

  const IPB := 16 // inodes per block
  const INODE_WORDS := 16

  /** The block that holds inode i. */
  function IBlock(sb: Super, i: nat): (r: nat) {
    i / IPB + sb.inodestart
  }

  /** The k-th inode stored in a block: its size is word 2 and its addresses follow. */
  function InodeAt(blk: Block, k: nat): (r: Inode)
    requires k < IPB
    ensures |r.addrs| == NDIRECT + 1
  {
    Inode(Word(blk, INODE_WORDS * k + 2), seq<Uint>(NDIRECT + 1, m requires 0 <= m <= NDIRECT => Word(blk, INODE_WORDS * k + 3 + m)))
  }

  function DiskInode(sb: Super, mem: Disk, i: nat): (r: Inode)
    ensures |r.addrs| == NDIRECT + 1
  {
    InodeAt(At(mem, IBlock(sb, i)), i % IPB)
  }

  function PutAddrs(blk: Block, w: nat, addrs: seq<Uint>): (r: Block)
    requires w + |addrs| <= WORDS_PER_BLOCK
  {
    if addrs == [] then blk
    else PutWord(PutAddrs(blk, w, addrs[..|addrs| - 1]), w + |addrs| - 1, addrs[|addrs| - 1])
  }

  /** A block with inode k stored in it. */
  function PutInode(blk: Block, k: nat, ino: Inode): (r: Block)
    requires k < IPB && |ino.addrs| == NDIRECT + 1
  {
    PutAddrs(PutWord(blk, INODE_WORDS * k + 2, ino.size), INODE_WORDS * k + 3, ino.addrs)
  }

  lemma {:induction false} PutAddrsWords(blk: Block, w: nat, addrs: seq<Uint>, j: nat)
    requires w + |addrs| <= WORDS_PER_BLOCK && j < WORDS_PER_BLOCK
    ensures Word(PutAddrs(blk, w, addrs), j) == if w <= j < w + |addrs| then addrs[j - w] else Word(blk, j)
  {
    hide Word, PutWord;
    if addrs != [] {
      var n := |addrs| - 1;
      PutAddrsWords(blk, w, addrs[..n], j);
      WordPutWord(PutAddrs(blk, w, addrs[..n]), w + n, addrs[n], j);
    }
  }

  /** Storing an inode is read back, and disturbs no other inode of the block. */
  lemma InodeRoundTrip(blk: Block, k: nat, ino: Inode, j: nat)
    requires k < IPB && |ino.addrs| == NDIRECT + 1 && j < IPB
    ensures InodeAt(PutInode(blk, k, ino), j) == if j == k then ino else InodeAt(blk, j)
  {
    hide Word, PutWord, PutInode;
    InodeWord(blk, k, ino, j, 2);
    forall m | 0 <= m <= NDIRECT
      ensures InodeAt(PutInode(blk, k, ino), j).addrs[m] == if j == k then ino.addrs[m] else InodeAt(blk, j).addrs[m]
    {
      InodeWord(blk, k, ino, j, m + 3);
    }
  }

  /** An inode on disk: 64 bytes, with the size at byte 8 and the addresses from byte 12 on, all
      little-endian. */
  lemma InodeFormat(blk: Block, k: nat, m: nat)
    requires k < IPB && m <= NDIRECT
    ensures InodeAt(blk, k).size == Little(blk[64 * k + 8..64 * k + 12])
    ensures InodeAt(blk, k).addrs[m] == Little(blk[64 * k + 12 + 4 * m..64 * k + 16 + 4 * m])
  {
    hide Word, Little;
    WordIsLittle(blk, INODE_WORDS * k + 2);
    WordIsLittle(blk, INODE_WORDS * k + 3 + m);
  }

  lemma InodeWord(blk: Block, k: nat, ino: Inode, j: nat, m: nat)
    requires k < IPB && |ino.addrs| == NDIRECT + 1 && j < IPB && 2 <= m < INODE_WORDS
    ensures var w := INODE_WORDS * j + m;
            Word(PutInode(blk, k, ino), w) == if j != k then Word(blk, w) else if m == 2 then ino.size else ino.addrs[m - 3]
  {
    hide Word, PutWord, PutAddrs;
    WordPutWord(blk, INODE_WORDS * k + 2, ino.size, INODE_WORDS * j + m);
    PutAddrsWords(PutWord(blk, INODE_WORDS * k + 2, ino.size), INODE_WORDS * k + 3, ino.addrs, INODE_WORDS * j + m);
  }

  /** iupdate stores one inode, and the others on disk stay. */
  lemma DiskInodePut(sb: Super, mem: Disk, i: nat, ino: Inode, j: nat)
    requires |ino.addrs| == NDIRECT + 1
    ensures var b := IBlock(sb, i);
            DiskInode(sb, mem[b := PutInode(At(mem, b), i % IPB, ino)], j) == if j == i then ino else DiskInode(sb, mem, j)
  {
    hide InodeAt, PutInode;
    InodeRoundTrip(At(mem, IBlock(sb, i)), i % IPB, ino, j % IPB);
  }

  /** A place that can hold a block address: k < NDIRECT a direct one, NDIRECT the indirect block,
      and above that an entry of the indirect block. */
  datatype Slot = Slot(inum: nat, k: nat)

  const NSLOTS := 269 // NDIRECT + 1 + NINDIRECT

  /** Block contents, inodes, and which slot owns each allocated data block. */
  datatype Fs = Fs(mem: Disk, inodes: seq<Inode>, owner: map<nat, Slot>)

  ghost predicate Shape(f: Fs) {
    forall i | 0 <= i < |f.inodes| :: |f.inodes[i].addrs| == NDIRECT + 1
  }

  ghost predicate IsSlot(f: Fs, s: Slot) {
    s.inum < |f.inodes| && s.k < NSLOTS
  }

  /** The address in a slot; 0 means none. */
  ghost function Addr(f: Fs, s: Slot): (a: nat)
    requires Shape(f) && IsSlot(f, s)
  {
    var addrs := f.inodes[s.inum].addrs;
    if s.k <= NDIRECT then addrs[s.k]
    else if addrs[NDIRECT] == 0 then 0
    else Word(At(f.mem, addrs[NDIRECT]), s.k - NDIRECT - 1)
  }

  /** Every address in a slot belongs to that slot alone, and to a data block. */
  ghost predicate OwnersOk(sb: Super, f: Fs)
    requires Shape(f)
  {
    && (forall s: Slot | IsSlot(f, s) && Addr(f, s) != 0 :: Addr(f, s) in f.owner && f.owner[Addr(f, s)] == s)
    && (forall a | a in f.owner :: sb.datastart <= a < sb.size && IsSlot(f, f.owner[a]) && Addr(f, f.owner[a]) == a)
  }

  /** A bit is set exactly for metadata blocks, owned blocks, and the blocks in transit. */
  ghost predicate BitsOk(sb: Super, f: Fs, transit: set<nat>) {
    && (forall b: nat | b < sb.size :: Bit(sb, f.mem, b) <==> b < sb.datastart || b in f.owner || b in transit)
    && (forall b | b in transit :: sb.datastart <= b < sb.size && b !in f.owner)
  }

  ghost predicate Inv(sb: Super, f: Fs, transit: set<nat>) {
    ValidSuper(sb) && Shape(f) && OwnersOk(sb, f) && BitsOk(sb, f, transit)
  }

  /** Bitmap blocks are metadata, so no data block shares one. */
  lemma BBlockIsMeta(sb: Super, b: nat)
    requires ValidSuper(sb) && b < sb.size
    ensures sb.bmapstart <= BBlock(sb, b) < sb.datastart
  {
  }

  ghost predicate SameOwned(f: Fs, mem: Disk) {
    forall a | a in f.owner :: At(mem, a) == At(f.mem, a)
  }

  /** Addresses depend only on the contents of owned blocks. */
  lemma OwnedFrame(sb: Super, f: Fs, mem: Disk)
    requires Shape(f) && OwnersOk(sb, f) && SameOwned(f, mem)
    ensures Shape(f.(mem := mem)) && OwnersOk(sb, f.(mem := mem))
    ensures forall s: Slot | IsSlot(f, s) :: Addr(f.(mem := mem), s) == Addr(f, s)
  {
    hide Word;
    var g := f.(mem := mem);
    forall s: Slot | IsSlot(f, s) ensures Addr(g, s) == Addr(f, s) {
      var ind := Slot(s.inum, NDIRECT);
      assert IsSlot(f, ind);
    }
  }

  /** balloc marks a clear block and zeroes it: it goes in transit, and nothing else changes. */
  lemma AllocKeeps(sb: Super, f: Fs, transit: set<nat>, b: nat)
    requires Inv(sb, f, transit) && b < sb.size && !Bit(sb, f.mem, b)
    ensures var mem := PutBit(sb, f.mem, b, true)[b := ZERO_BLOCK];
            && sb.datastart <= b && b !in f.owner && b !in transit
            && Inv(sb, f.(mem := mem), transit + {b})
            && SameOwned(f, mem)
  {
    hide Addr, Bit, BitBlock, Word;
    var mem := PutBit(sb, f.mem, b, true)[b := ZERO_BLOCK];
    BBlockIsMeta(sb, b);
    OwnedFrame(sb, f, mem);
    forall c: nat | c < sb.size ensures Bit(sb, mem, c) == if c == b then true else Bit(sb, f.mem, c) {
      BBlockIsMeta(sb, c);
      BitPutBit(sb, f.mem, b, true, c);
      BitFrame(sb, PutBit(sb, f.mem, b, true), mem, c);
    }
  }

  lemma BitFrame(sb: Super, m: Disk, mem: Disk, c: nat)
    requires At(mem, BBlock(sb, c)) == At(m, BBlock(sb, c))
    ensures Bit(sb, mem, c) == Bit(sb, m, c)
  {
  }

  /** bfree of a block in transit. */
  lemma FreeKeeps(sb: Super, f: Fs, transit: set<nat>, b: nat)
    requires Inv(sb, f, transit) && b in transit
    ensures var mem := PutBit(sb, f.mem, b, false);
            && Bit(sb, f.mem, b)
            && Inv(sb, f.(mem := mem), transit - {b})
            && SameOwned(f, mem)
  {
    hide Addr, Bit, BitBlock, Word;
    var mem := PutBit(sb, f.mem, b, false);
    BBlockIsMeta(sb, b);
    OwnedFrame(sb, f, mem);
    forall c: nat | c < sb.size ensures Bit(sb, mem, c) == if c == b then false else Bit(sb, f.mem, c) {
      BitPutBit(sb, f.mem, b, false, c);
    }
  }

  // ------------------------------------------------------------------ attaching and detaching

  ghost function SetAddr(f: Fs, i: nat, k: nat, a: Uint): (g: Fs)
    requires Shape(f) && i < |f.inodes| && k <= NDIRECT
    ensures Shape(g)
  {
    f.(inodes := f.inodes[i := f.inodes[i].(addrs := f.inodes[i].addrs[k := a])])
  }

  lemma ZeroWord(j: nat)
    requires j < WORDS_PER_BLOCK
    ensures Word(ZERO_BLOCK, j) == 0
  {
  }

  /** A store in addrs[k] changes that address alone; an indirect block comes or goes empty. */
  lemma SetAddrAddrs(f: Fs, i: nat, k: nat, a: Uint)
    requires Shape(f) && i < |f.inodes| && k <= NDIRECT
    requires k == NDIRECT ==> f.inodes[i].addrs[k] == 0 && At(f.mem, a) == ZERO_BLOCK
    ensures forall s: Slot | IsSlot(f, s) :: Addr(SetAddr(f, i, k, a), s) == if s == Slot(i, k) then a else Addr(f, s)
  {
    hide Word, At;
    forall s: Slot | IsSlot(f, s) ensures Addr(SetAddr(f, i, k, a), s) == if s == Slot(i, k) then a else Addr(f, s) {
      if s.k > NDIRECT {
        ZeroWord(s.k - NDIRECT - 1);
      }
    }
  }

  /** Storing a block in transit in an empty direct slot, or as an empty indirect block. */
  lemma AttachPointer(sb: Super, f: Fs, transit: set<nat>, i: nat, k: nat, b: Uint)
    requires Inv(sb, f, transit) && b in transit && i < |f.inodes| && k <= NDIRECT
    requires f.inodes[i].addrs[k] == 0 && (k == NDIRECT ==> At(f.mem, b) == ZERO_BLOCK)
    ensures var g := SetAddr(f, i, k, b).(owner := f.owner[b := Slot(i, k)]);
            && Inv(sb, g, transit - {b})
            && (forall s: Slot | IsSlot(f, s) :: Addr(g, s) == if s == Slot(i, k) then b else Addr(f, s))
  {
    hide Word, Bit, Addr, At;
    var g := SetAddr(f, i, k, b).(owner := f.owner[b := Slot(i, k)]);
    SetAddrAddrs(f, i, k, b);
    OwnerOnly(SetAddr(f, i, k, b), g.owner);
    PointerAddr(f, i, k);
    forall s: Slot | IsSlot(g, s) && Addr(g, s) != 0 ensures Addr(g, s) in g.owner && g.owner[Addr(g, s)] == s {
      if s != Slot(i, k) {
        assert Addr(g, s) == Addr(f, s);
      }
    }
  }

  /** Who owns a block does not matter for the addresses. */
  lemma OwnerOnly(f: Fs, owner: map<nat, Slot>)
    requires Shape(f)
    ensures Shape(f.(owner := owner)) && forall s: Slot | IsSlot(f, s) :: Addr(f.(owner := owner), s) == Addr(f, s)
  {
  }

  ghost function SetEntry(f: Fs, i: nat, j: nat, b: Uint): (g: Fs)
    requires Shape(f) && i < |f.inodes| && j < NINDIRECT
    ensures Shape(g) && g.inodes == f.inodes
  {
    var ind := f.inodes[i].addrs[NDIRECT];
    f.(mem := f.mem[ind := PutWord(At(f.mem, ind), j, b)], owner := f.owner[b := Slot(i, NDIRECT + 1 + j)])
  }

  lemma EntryAddrs(sb: Super, f: Fs, i: nat, j: nat, b: Uint)
    requires Shape(f) && OwnersOk(sb, f) && i < |f.inodes| && j < NINDIRECT && f.inodes[i].addrs[NDIRECT] != 0
    ensures forall s: Slot | IsSlot(f, s) ::
              Addr(SetEntry(f, i, j, b), s) == if s == Slot(i, NDIRECT + 1 + j) then b else Addr(f, s)
  {
    hide Word, PutWord;
    var ind, s0, g := f.inodes[i].addrs[NDIRECT], Slot(i, NDIRECT + 1 + j), SetEntry(f, i, j, b);
    assert Addr(f, Slot(i, NDIRECT)) == ind;
    forall s: Slot | IsSlot(f, s) ensures Addr(g, s) == if s == s0 then b else Addr(f, s) {
      assert IsSlot(f, Slot(s.inum, NDIRECT));
      assert Addr(f, Slot(s.inum, NDIRECT)) == ind ==> s.inum == i;
      if s.inum == i && s.k > NDIRECT {
        WordPutWord(At(f.mem, ind), j, b, s.k - NDIRECT - 1);
      }
    }
  }

  /** Storing a block in transit in an empty entry of the indirect block. */
  lemma AttachEntry(sb: Super, f: Fs, transit: set<nat>, i: nat, j: nat, b: Uint)
    requires Inv(sb, f, transit) && b in transit && i < |f.inodes| && j < NINDIRECT
    requires f.inodes[i].addrs[NDIRECT] != 0 && Addr(f, Slot(i, NDIRECT + 1 + j)) == 0
    ensures Inv(sb, SetEntry(f, i, j, b), transit - {b})
  {
    hide Word, PutWord, Bit, Addr, At;
    var ind, s0, g := f.inodes[i].addrs[NDIRECT], Slot(i, NDIRECT + 1 + j), SetEntry(f, i, j, b);
    IndirectIsData(sb, f, i);
    OtherBlocks(f.mem, ind, PutWord(At(f.mem, ind), j, b));
    EntryBits(sb, f, transit, ind, g);
    EntryAddrs(sb, f, i, j, b);
    forall s: Slot | IsSlot(g, s) && Addr(g, s) != 0 ensures Addr(g, s) in g.owner && g.owner[Addr(g, s)] == s {
      if s != s0 {
        assert Addr(g, s) == Addr(f, s);
      }
    }
  }

  lemma IndirectIsData(sb: Super, f: Fs, i: nat)
    requires Shape(f) && OwnersOk(sb, f) && i < |f.inodes| && f.inodes[i].addrs[NDIRECT] != 0
    ensures sb.datastart <= f.inodes[i].addrs[NDIRECT] < sb.size
  {
    assert IsSlot(f, Slot(i, NDIRECT)) && Addr(f, Slot(i, NDIRECT)) == f.inodes[i].addrs[NDIRECT];
  }

  lemma OtherBlocks(d: Disk, a: nat, blk: Block)
    ensures At(d[a := blk], a) == blk && forall b: nat | b != a :: At(d[a := blk], b) == At(d, b)
  {
  }

  lemma EntryBits(sb: Super, f: Fs, transit: set<nat>, ind: nat, g: Fs)
    requires ValidSuper(sb) && sb.datastart <= ind
    requires forall b: nat | b != ind :: At(g.mem, b) == At(f.mem, b)
    ensures forall c: nat | c < sb.size :: Bit(sb, g.mem, c) == Bit(sb, f.mem, c)
  {
  }

  /** Overwriting a file's data block moves no block. */
  lemma WriteKeeps(sb: Super, f: Fs, transit: set<nat>, s0: Slot, blk: Block)
    requires Inv(sb, f, transit) && IsSlot(f, s0) && s0.k != NDIRECT && Addr(f, s0) != 0
    ensures var g := f.(mem := f.mem[Addr(f, s0) := blk]);
            && Inv(sb, g, transit)
            && (forall s: Slot | IsSlot(f, s) :: Addr(g, s) == Addr(f, s))
  {
    hide Word, Bit, Addr, At;
    var a := Addr(f, s0);
    WriteAddrs(sb, f, s0, blk);
    OtherBlocks(f.mem, a, blk);
    EntryBits(sb, f, transit, a, f.(mem := f.mem[a := blk]));
  }

  lemma WriteAddrs(sb: Super, f: Fs, s0: Slot, blk: Block)
    requires Shape(f) && OwnersOk(sb, f) && IsSlot(f, s0) && s0.k != NDIRECT && Addr(f, s0) != 0
    ensures var g := f.(mem := f.mem[Addr(f, s0) := blk]);
            forall s: Slot | IsSlot(f, s) :: Addr(g, s) == Addr(f, s)
  {
    hide Word;
    var a := Addr(f, s0);
    var g := f.(mem := f.mem[a := blk]);
    forall s: Slot | IsSlot(f, s) ensures Addr(g, s) == Addr(f, s) {
      assert IsSlot(f, Slot(s.inum, NDIRECT));
      assert Addr(f, Slot(s.inum, NDIRECT)) != a;
    }
  }

  /** Clearing a direct slot puts its block in transit. */
  lemma DetachPointer(sb: Super, f: Fs, transit: set<nat>, i: nat, k: nat)
    requires Inv(sb, f, transit) && i < |f.inodes| && k < NDIRECT && f.inodes[i].addrs[k] != 0
    ensures var a := f.inodes[i].addrs[k];
            var g := SetAddr(f, i, k, 0).(owner := f.owner - {a});
            && a !in transit
            && Inv(sb, g, transit + {a})
            && (forall s: Slot | IsSlot(f, s) :: Addr(g, s) == if s == Slot(i, k) then 0 else Addr(f, s))
  {
    hide Word, Bit, Addr, At;
    var a := f.inodes[i].addrs[k];
    var g := SetAddr(f, i, k, 0).(owner := f.owner - {a});
    PointerAddr(f, i, k);
    SetAddrAddrs(f, i, k, 0);
    OwnerOnly(SetAddr(f, i, k, 0), g.owner);
    forall s: Slot | IsSlot(g, s) && Addr(g, s) != 0 ensures Addr(g, s) in g.owner && g.owner[Addr(g, s)] == s {
      assert Addr(g, s) == Addr(f, s);
    }
  }

  /** The addresses in entries j and up of an indirect block. */
  ghost function EntriesFrom(blk: Block, j: nat): (r: set<nat>)
    requires j <= NINDIRECT
    ensures forall a :: a in r <==> a != 0 && exists k | j <= k < NINDIRECT :: a == Word(blk, k)
    decreases NINDIRECT - j
  {
    if j == NINDIRECT then {}
    else if Word(blk, j) == 0 then EntriesFrom(blk, j + 1)
    else {Word(blk, j)} + EntriesFrom(blk, j + 1)
  }

  /** The blocks reached through the indirect pointer of inode i. */
  ghost function Subtree(f: Fs, i: nat): (r: set<nat>)
    requires Shape(f) && i < |f.inodes|
  {
    var ind := f.inodes[i].addrs[NDIRECT];
    EntriesFrom(At(f.mem, ind), 0) + {ind}
  }

  ghost function Detached(f: Fs, i: nat): (g: Fs)
    requires Shape(f) && i < |f.inodes|
    ensures Shape(g)
  {
    SetAddr(f, i, NDIRECT, 0).(owner := f.owner - Subtree(f, i))
  }

  /** The entries of an indirect block are distinct owned blocks, and none is the block itself. */
  lemma EntryOwners(sb: Super, f: Fs, i: nat)
    requires Shape(f) && OwnersOk(sb, f) && i < |f.inodes| && f.inodes[i].addrs[NDIRECT] != 0
    ensures var ind := f.inodes[i].addrs[NDIRECT];
            var blk := At(f.mem, ind);
            && (forall j | 0 <= j < NINDIRECT && Word(blk, j) != 0 ::
                  Word(blk, j) in f.owner && f.owner[Word(blk, j)] == Slot(i, NDIRECT + 1 + j))
            && (forall a | a in Subtree(f, i) :: a in f.owner && f.owner[a].inum == i && f.owner[a].k >= NDIRECT)
            && ind !in EntriesFrom(blk, 0)
  {
    hide Word, EntriesFrom;
    var ind := f.inodes[i].addrs[NDIRECT];
    var blk := At(f.mem, ind);
    assert IsSlot(f, Slot(i, NDIRECT)) && Addr(f, Slot(i, NDIRECT)) == ind;
    forall j | 0 <= j < NINDIRECT && Word(blk, j) != 0
      ensures Word(blk, j) in f.owner && f.owner[Word(blk, j)] == Slot(i, NDIRECT + 1 + j)
    {
      assert Addr(f, Slot(i, NDIRECT + 1 + j)) == Word(blk, j);
    }
  }

  lemma DetachedAddrs(sb: Super, f: Fs, i: nat)
    requires Shape(f) && OwnersOk(sb, f) && i < |f.inodes| && f.inodes[i].addrs[NDIRECT] != 0
    ensures forall s: Slot | IsSlot(f, s) ::
              Addr(Detached(f, i), s) == if s.inum == i && s.k >= NDIRECT then 0 else Addr(f, s)
    ensures forall s: Slot | IsSlot(f, s) && s.inum == i && s.k >= NDIRECT && Addr(f, s) != 0 :: Addr(f, s) in Subtree(f, i)
  {
    hide Word, EntriesFrom;
    forall s: Slot | IsSlot(f, s) && s.inum == i && s.k >= NDIRECT && Addr(f, s) != 0
      ensures Addr(f, s) in Subtree(f, i)
    {
      if s.k > NDIRECT {
        assert Addr(f, s) == Word(At(f.mem, f.inodes[i].addrs[NDIRECT]), s.k - NDIRECT - 1);
      }
    }
  }

  /** Clearing the indirect pointer puts the indirect block and all its entries in transit. */
  lemma DetachIndirect(sb: Super, f: Fs, transit: set<nat>, i: nat)
    requires Inv(sb, f, transit) && i < |f.inodes| && f.inodes[i].addrs[NDIRECT] != 0
    ensures transit !! Subtree(f, i)
    ensures Inv(sb, Detached(f, i), transit + Subtree(f, i))
  {
    hide Word, Bit, EntriesFrom, Addr, Subtree;
    var g := Detached(f, i);
    EntryOwners(sb, f, i);
    DetachedAddrs(sb, f, i);
    forall s: Slot | IsSlot(g, s) && Addr(g, s) != 0 ensures Addr(g, s) in g.owner && g.owner[Addr(g, s)] == s {
      assert Addr(g, s) == Addr(f, s) && f.owner[Addr(f, s)] == s;
    }
    forall a | a in g.owner ensures Addr(g, g.owner[a]) == a {
      var s := f.owner[a];
      assert Addr(f, s) == a;
    }
  }

  // ------------------------------------------------------------------ file contents

  /** The slot of the bn-th block of a file. */
  ghost function SlotOf(i: nat, bn: nat): (s: Slot) {
    Slot(i, if bn < NDIRECT then bn else bn + 1)
  }

  /** Files have no holes: every block below the size is allocated. */
  ghost predicate FilesOk(f: Fs)
    requires Shape(f)
  {
    forall i | 0 <= i < |f.inodes| ::
      && f.inodes[i].size <= MAXFILE * BSIZE
      && forall bn: nat | bn < MAXFILE && bn * BSIZE < f.inodes[i].size :: Addr(f, SlotOf(i, bn)) != 0
  }

  ghost function FileByte(f: Fs, i: nat, off: nat): (b: Byte)
    requires Shape(f) && i < |f.inodes| && off < MAXFILE * BSIZE
  {
    At(f.mem, Addr(f, SlotOf(i, off / BSIZE)))[off % BSIZE]
  }

  /** The bytes of a file. */
  ghost function Contents(f: Fs, i: nat): (r: seq<Byte>)
    requires Shape(f) && i < |f.inodes| && f.inodes[i].size <= MAXFILE * BSIZE
    ensures |r| == f.inodes[i].size
    ensures forall off | 0 <= off < |r| :: r[off] == FileByte(f, i, off)
  {
    seq<Byte>(f.inodes[i].size, off requires 0 <= off < f.inodes[i].size => FileByte(f, i, off))
  }

  /** From f to g blocks were only added: no address and no file data changed. */
  ghost predicate Grows(f: Fs, g: Fs)
    requires Shape(f) && Shape(g)
  {
    && |f.inodes| == |g.inodes|
    && (forall i | 0 <= i < |f.inodes| :: g.inodes[i].size == f.inodes[i].size)
    && (forall s: Slot | IsSlot(f, s) && Addr(f, s) != 0 ::
          && Addr(g, s) == Addr(f, s)
          && (s.k != NDIRECT ==> At(g.mem, Addr(g, s)) == At(f.mem, Addr(f, s))))
  }

  lemma GrowsTransitive(f: Fs, g: Fs, h: Fs)
    requires Shape(f) && Shape(g) && Shape(h) && Grows(f, g) && Grows(g, h)
    ensures Grows(f, h)
  {
  }

  /** Adding blocks changes the contents of no file. */
  lemma GrowsKeepsFiles(f: Fs, g: Fs)
    requires Shape(f) && Shape(g) && FilesOk(f) && Grows(f, g)
    ensures FilesOk(g)
    ensures forall i | 0 <= i < |f.inodes| :: Contents(g, i) == Contents(f, i)
  {
  }

  // ------------------------------------------------------------------ allocation into a slot

  ghost function Alloced(sb: Super, f: Fs, b: nat): (g: Fs)
    ensures g.inodes == f.inodes && g.owner == f.owner
  {
    f.(mem := PutBit(sb, f.mem, b, true)[b := ZERO_BLOCK])
  }

  /** balloc into an empty direct slot or the empty indirect slot. */
  ghost function AllocPointer(sb: Super, f: Fs, i: nat, k: nat, b: Uint): (g: Fs)
    requires Shape(f) && i < |f.inodes| && k <= NDIRECT
    ensures Shape(g)
  {
    SetAddr(Alloced(sb, f, b), i, k, b).(owner := f.owner[b := Slot(i, k)])
  }

  /** balloc into an empty entry of the indirect block. */
  ghost function AllocEntry(sb: Super, f: Fs, i: nat, j: nat, b: Uint): (g: Fs)
    requires Shape(f) && i < |f.inodes| && j < NINDIRECT
    ensures Shape(g) && g.inodes == f.inodes
  {
    SetEntry(Alloced(sb, f, b), i, j, b)
  }

  lemma AllocedAddrs(sb: Super, f: Fs, b: Uint)
    requires Inv(sb, f, {}) && b < sb.size && !Bit(sb, f.mem, b)
    ensures sb.datastart <= b && b !in f.owner
    ensures Inv(sb, Alloced(sb, f, b), {b}) && At(Alloced(sb, f, b).mem, b) == ZERO_BLOCK
    ensures forall s: Slot | IsSlot(f, s) :: Addr(Alloced(sb, f, b), s) == Addr(f, s)
    ensures SameOwned(f, Alloced(sb, f, b).mem)
  {
    hide Bit, BitBlock, Word, Addr;
    AllocKeeps(sb, f, {}, b);
    OwnedFrame(sb, f, Alloced(sb, f, b).mem);
    assert {} + {b} == {b};
  }

  lemma AllocPointerKeeps(sb: Super, f: Fs, i: nat, k: nat, b: Uint)
    requires Inv(sb, f, {}) && b < sb.size && !Bit(sb, f.mem, b)
    requires i < |f.inodes| && k <= NDIRECT && f.inodes[i].addrs[k] == 0
    ensures var g := AllocPointer(sb, f, i, k, b);
            && Inv(sb, g, {}) && Grows(f, g) && At(g.mem, b) == ZERO_BLOCK && b != 0
            && (forall s: Slot | IsSlot(f, s) :: Addr(g, s) == if s == Slot(i, k) then b else Addr(f, s))
  {
    hide Bit, BitBlock, Word, Addr, PutBit, At;
    var h, g := Alloced(sb, f, b), AllocPointer(sb, f, i, k, b);
    AllocedAddrs(sb, f, b);
    AttachPointer(sb, h, {b}, i, k, b);
    assert {b} - {b} == {};
    SlotIsEmpty(f, i, k);
    forall s: Slot | IsSlot(f, s) && Addr(f, s) != 0
      ensures Addr(g, s) == Addr(f, s) && At(g.mem, Addr(g, s)) == At(f.mem, Addr(f, s))
    {
      assert Addr(h, s) == Addr(f, s);
    }
  }

  lemma SlotIsEmpty(f: Fs, i: nat, k: nat)
    requires Shape(f) && i < |f.inodes| && k <= NDIRECT && f.inodes[i].addrs[k] == 0
    ensures Addr(f, Slot(i, k)) == 0
  {
  }

  lemma AllocEntryKeeps(sb: Super, f: Fs, i: nat, j: nat, b: Uint)
    requires Inv(sb, f, {}) && b < sb.size && !Bit(sb, f.mem, b)
    requires i < |f.inodes| && j < NINDIRECT && f.inodes[i].addrs[NDIRECT] != 0 && Addr(f, Slot(i, NDIRECT + 1 + j)) == 0
    ensures var g := AllocEntry(sb, f, i, j, b);
            && Inv(sb, g, {}) && Grows(f, g) && At(g.mem, b) == ZERO_BLOCK && b != 0
            && (forall s: Slot | IsSlot(f, s) :: Addr(g, s) == if s == Slot(i, NDIRECT + 1 + j) then b else Addr(f, s))
  {
    hide Bit, BitBlock, Word, PutWord, Addr, PutBit, At;
    var h, g, s0, ind := Alloced(sb, f, b), AllocEntry(sb, f, i, j, b), Slot(i, NDIRECT + 1 + j), f.inodes[i].addrs[NDIRECT];
    AllocedAddrs(sb, f, b);
    AttachEntry(sb, h, {b}, i, j, b);
    EntryAddrs(sb, h, i, j, b);
    assert {b} - {b} == {};
    OtherBlocks(h.mem, ind, PutWord(At(h.mem, ind), j, b));
    PointerAddr(f, i, NDIRECT);
    assert IsSlot(f, s0);
    forall s: Slot | IsSlot(f, s) && Addr(f, s) != 0
      ensures Addr(g, s) == Addr(f, s) && (s.k != NDIRECT ==> At(g.mem, Addr(g, s)) == At(f.mem, Addr(f, s)))
    {
      assert Addr(h, s) == Addr(f, s);
      assert IsSlot(f, Slot(i, NDIRECT));
      if s.k != NDIRECT {
        assert Addr(f, s) != ind;
      }
    }
  }

  lemma PointerAddr(f: Fs, i: nat, k: nat)
    requires Shape(f) && i < |f.inodes| && k <= NDIRECT
    ensures IsSlot(f, Slot(i, k)) && Addr(f, Slot(i, k)) == f.inodes[i].addrs[k]
  {
  }
}
