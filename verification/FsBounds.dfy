/** How many blocks the operations on a file log, at worst: a chunk of filewrite that logs exactly
    MAXOPBLOCKS blocks, and the disks on which every truncation stays within that bound. */
module FsBounds {
  import opened Blocks
  import opened Common
  import opened Counting
  import opened FsModel
  import opened FsWrite
  import opened FileSys

  // ------------------------------------------------------------------ an image

  /** A disk with eleven bitmap blocks. */
  const SB := Super(11 * BPB, 32, 6032, 6043)
  const NINODES: nat := 84070

  /** The blocks left clear: the last one of each bitmap block. */
  predicate Hole(b: nat) {
    b % BPB == BPB - 1
  }

  /** Blocks 0 to 11 of file 0. */
  function FirstFile(k: nat): (b: Uint)
    requires k < NDIRECT
  {
    if k < 11 then k * BPB + BPB - 2 else 11 * BPB - 3
  }

  predicate InFirst(b: nat) {
    b % BPB == BPB - 2 || b == 11 * BPB - 3
  }

  /** Every other data block is the only block of a file. */
  function OwnerOf(b: nat): (s: Slot)
    requires SB.datastart <= b < SB.size
  {
    if InFirst(b) then Slot(0, if b % BPB == BPB - 2 then b / BPB else 11) else Slot(b - SB.datastart + 1, 0)
  }

  function InodeOf(j: nat): (r: Inode)
    requires j < NINODES
    ensures |r.addrs| == NDIRECT + 1
  {
    if j == 0 then Inode(11 * BSIZE + 1, seq<Uint>(NDIRECT, k requires 0 <= k < NDIRECT => FirstFile(k)) + [0])
    else
      var b := j - 1 + SB.datastart;
      if Hole(b) || InFirst(b) then EMPTY_INODE
      else Inode(BSIZE, [b, 0, 0, 0, 0, 0, 0, 0, 0, 0, 0, 0, 0])
  }

  function Marks(n: nat): (d: Disk) {
    if n == 0 then map[] else PutBit(SB, Marks(n - 1), n - 1, !Hole(n - 1))
  }

  /** The disk with the bitmap and the first n inodes. */
  function Image(n: nat): (d: Disk)
    requires n <= NINODES
  {
    if n == 0 then Marks(SB.size)
    else
      var d, b := Image(n - 1), IBlock(SB, n - 1);
      d[b := PutInode(At(d, b), (n - 1) % IPB, InodeOf(n - 1))]
  }

  ghost const OWNERS: map<nat, Slot> := map b: nat | SB.datastart <= b < SB.size && !Hole(b) :: OwnerOf(b)

  lemma {:induction false} MarksBits(n: nat, c: nat)
    ensures Bit(SB, Marks(n), c) <==> c < n && !Hole(c)
  {
    hide Bit, PutBit;
    if n == 0 {
      NoBits(SB, c);
    } else {
      MarksBits(n - 1, c);
      BitPutBit(SB, Marks(n - 1), n - 1, !Hole(n - 1), c);
    }
  }

  lemma {:induction false} MarksAreBitmap(n: nat, b: nat)
    requires n <= SB.size && b in Marks(n)
    ensures SB.bmapstart <= b < SB.datastart
  {
    hide BitBlock;
    if n > 0 && b in Marks(n - 1) {
      MarksAreBitmap(n - 1, b);
    }
  }

  lemma {:induction false} ImageInodes(n: nat, j: nat)
    requires j < n <= NINODES
    ensures DiskInode(SB, Image(n), j) == InodeOf(j)
  {
    hide DiskInode, InodeOf, PutInode;
    if j < n - 1 {
      ImageInodes(n - 1, j);
    }
    DiskInodePut(SB, Image(n - 1), n - 1, InodeOf(n - 1), j);
  }

  lemma {:induction false} ImageBlocks(n: nat, b: nat)
    requires n <= NINODES && SB.bmapstart <= b
    ensures At(Image(n), b) == At(Marks(SB.size), b)
    ensures SB.datastart <= b ==> At(Image(n), b) == ZERO_BLOCK
  {
    hide Marks, InodeOf, PutInode;
    if n == 0 {
      if b in Marks(SB.size) {
        MarksAreBitmap(SB.size, b);
      }
    } else {
      ImageBlocks(n - 1, b);
    }
  }

  lemma ImageBits(c: nat)
    requires c < SB.size
    ensures Bit(SB, Image(NINODES), c) <==> !Hole(c)
  {
    hide Bit, Marks, Image;
    ImageBlocks(NINODES, BBlock(SB, c));
    BitFrame(SB, Marks(SB.size), Image(NINODES), c);
    MarksBits(SB.size, c);
  }

  ghost function Start(): (f: Fs) {
    OnDisk(SB, Image(NINODES), NINODES, OWNERS)
  }

  lemma StartInodes()
    ensures |Start().inodes| == NINODES && forall j | 0 <= j < NINODES :: Start().inodes[j] == InodeOf(j)
  {
    hide InodeOf, Image, DiskInode;
    forall j | 0 <= j < NINODES ensures Start().inodes[j] == InodeOf(j) {
      ImageInodes(NINODES, j);
    }
  }

  /** No file has an indirect block, so a slot holds what its inode says. */
  lemma StartAddr(s: Slot)
    requires IsSlot(Start(), s)
    ensures s.inum < NINODES
    ensures Addr(Start(), s) == if s.k < NDIRECT then InodeOf(s.inum).addrs[s.k] else 0
  {
    hide Image, DiskInode, FirstFile, Hole;
    StartInodes();
  }

  lemma InodeOwns(j: nat, k: nat)
    requires j < NINODES && k < NDIRECT && InodeOf(j).addrs[k] != 0
    ensures var a := InodeOf(j).addrs[k]; SB.datastart <= a < SB.size && !Hole(a) && OwnerOf(a) == Slot(j, k)
  {
  }

  lemma OwnerHas(a: nat)
    requires SB.datastart <= a < SB.size && !Hole(a)
    ensures var s := OwnerOf(a); s.inum < NINODES && s.k < NDIRECT && InodeOf(s.inum).addrs[s.k] == a
  {
  }

  lemma StartOk()
    ensures FsOk(SB, Start())
  {
    hide Image, DiskInode, InodeOf, OwnerOf, Addr, Bit, Hole;
    var f := Start();
    StartInodes();
    forall s: Slot | IsSlot(f, s) && Addr(f, s) != 0 ensures Addr(f, s) in f.owner && f.owner[Addr(f, s)] == s {
      StartAddr(s);
      InodeOwns(s.inum, s.k);
    }
    forall a | a in f.owner ensures IsSlot(f, f.owner[a]) && Addr(f, f.owner[a]) == a {
      OwnerHas(a);
      StartAddr(f.owner[a]);
    }
    forall b: nat | b < SB.size ensures Bit(SB, f.mem, b) <==> b < SB.datastart || b in f.owner {
      ImageBits(b);
      if b < SB.datastart {
        BelowDataIsMarked(b);
      }
    }
    forall i | 0 <= i < |f.inodes|
      ensures f.inodes[i].size <= MAXFILE * BSIZE
      ensures forall bn: nat | bn < MAXFILE && bn * BSIZE < f.inodes[i].size :: Addr(f, SlotOf(i, bn)) != 0
    {
      StartFile(i);
    }
    assert FilesOk(f);
  }

  lemma BelowDataIsMarked(b: nat)
    requires b < SB.datastart
    ensures !Hole(b)
  {
  }

  lemma StartFile(i: nat)
    requires i < |Start().inodes|
    ensures Start().inodes[i].size <= MAXFILE * BSIZE
    ensures forall bn: nat | bn < MAXFILE && bn * BSIZE < Start().inodes[i].size :: Addr(Start(), SlotOf(i, bn)) != 0
  {
    hide Image, DiskInode, Addr, Hole;
    var f := Start();
    StartInodes();
    forall bn: nat | bn < MAXFILE && bn * BSIZE < f.inodes[i].size ensures Addr(f, SlotOf(i, bn)) != 0 {
      StartAddr(SlotOf(i, bn));
    }
  }

  // ------------------------------------------------------------------ a chunk that logs ten blocks

  const OFF: Uint := 11 * BSIZE + 1

  function Ones(n: nat): (r: seq<Byte>)
    ensures |r| == n && forall p | 0 <= p < n :: r[p] == 1
  {
    seq<Byte>(n, _ => 1)
  }

  /** Blocks that differ were logged. */
  lemma ChangedIsLogged(sb: Super, f: Fs, t: Chunk, b: nat)
    requires OneTxn(sb, f, t) && At(t.after.mem, b) != At(f.mem, b)
    ensures b in t.logged
  {
  }

  lemma BitSetIsLogged(sb: Super, f: Fs, t: Chunk, c: nat)
    requires OneTxn(sb, f, t) && !Bit(sb, f.mem, c) && Bit(sb, t.after.mem, c)
    ensures BBlock(sb, c) in t.logged
  {
    hide Bit, OneTxn, BBlock;
    if At(t.after.mem, BBlock(sb, c)) == At(f.mem, BBlock(sb, c)) {
      BitFrame(sb, f.mem, t.after.mem, c);
    }
    ChangedIsLogged(sb, f, t, BBlock(sb, c));
  }

  /** One transaction cannot use up the image: it would log all eleven bitmap blocks. */
  lemma NotUsedUp(t: Chunk)
    requires OneTxn(SB, Start(), t)
    ensures exists c: nat | c < SB.size :: !Bit(SB, t.after.mem, c)
  {
    hide Bit, Start, OneTxn, Interval;
    TxnSize(SB, Start(), t);
    if forall c: nat | c < SB.size :: Bit(SB, t.after.mem, c) {
      forall b | b in Interval(SB.bmapstart, 11) ensures b in t.logged {
        HoleOf(b);
        BitSetIsLogged(SB, Start(), t, (b - SB.bmapstart) * BPB + BPB - 1);
      }
      SubsetSize(Interval(SB.bmapstart, 11), t.logged);
    }
  }

  /** The clear block of bitmap block b. */
  lemma HoleOf(b: nat)
    requires SB.bmapstart <= b < SB.bmapstart + 11
    ensures var c := (b - SB.bmapstart) * BPB + BPB - 1; c < SB.size && BBlock(SB, c) == b && !Bit(SB, Start().mem, c)
  {
    hide Bit, Image;
    ImageBits((b - SB.bmapstart) * BPB + BPB - 1);
  }

  lemma TxnSize(sb: Super, f: Fs, t: Chunk)
    requires OneTxn(sb, f, t)
    ensures |t.logged| <= MAXOPBLOCKS
  {
  }

  /** A slot that got a block, got one of the clear blocks, and its bitmap block was logged. */
  lemma NewBlock(t: Chunk, s: Slot)
    requires FsOk(SB, Start()) && OneTxn(SB, Start(), t) && Inv(SB, t.after, {}) && KeepsAddrs(Start(), t.after)
    requires |t.after.inodes| == NINODES && IsSlot(t.after, s) && IsSlot(Start(), s)
    requires Addr(Start(), s) == 0 && Addr(t.after, s) != 0
    ensures var a := Addr(t.after, s);
            && SB.datastart <= a < SB.size && Hole(a)
            && BBlock(SB, a) in t.logged && At(Start().mem, a) == ZERO_BLOCK
  {
    hide Addr, Image, DiskInode, Bit, OneTxn, FilesOk, Hole, BBlock;
    var f, g, a := Start(), t.after, Addr(t.after, s);
    assert a !in f.owner;
    ImageBits(a);
    BitSetIsLogged(SB, f, t, a);
    ImageBlocks(NINODES, a);
  }

  /** Two different clear blocks have different bitmap blocks. */
  lemma HolesApart(a: nat, b: nat)
    requires Hole(a) && Hole(b) && a != b
    ensures BBlock(SB, a) != BBlock(SB, b)
  {
  }

  /** A block that held zeros and got a byte of the data was logged. */
  lemma DataIsLogged(t: Chunk, bn: nat, a: nat)
    requires Shape(t.after) && |t.after.inodes| > 0 && 11 <= bn <= 14 && SB.datastart <= a == Addr(t.after, SlotOf(0, bn))
    requires OneTxn(SB, Start(), t) && Wrote(Start(), t.after, 0, OFF, Ones(CHUNK))
    ensures a in t.logged
  {
    hide Addr, Image, Start, OneTxn, Wrote, FileByte, At, Ones;
    var g := t.after;
    var p := if bn == 11 then OFF else bn * BSIZE;
    WroteOne(Start(), g, p);
    ByteIn(g, p, bn);
    StartIsZero(a);
    assert At(g.mem, a)[p % BSIZE] != At(Start().mem, a)[p % BSIZE];
    ChangedIsLogged(SB, Start(), t, a);
  }

  lemma StartIsZero(a: nat)
    requires SB.datastart <= a
    ensures At(Start().mem, a) == ZERO_BLOCK
  {
    ImageBlocks(NINODES, a);
  }

  lemma WroteOne(f: Fs, g: Fs, p: nat)
    requires Wrote(f, g, 0, OFF, Ones(CHUNK)) && OFF <= p < OFF + CHUNK
    ensures FileByte(g, 0, p) == 1
  {
    hide Addr, KeepsAddrs, FileByte, Splice, Ones, Contents;
    SpliceAt(Contents(f, 0), OFF, Ones(CHUNK));
    assert Contents(g, 0)[p] == FileByte(g, 0, p);
  }

  lemma ByteIn(g: Fs, p: nat, bn: nat)
    requires Shape(g) && |g.inodes| > 0 && p < MAXFILE * BSIZE && p / BSIZE == bn
    ensures FileByte(g, 0, p) == At(g.mem, Addr(g, SlotOf(0, bn)))[p % BSIZE]
  {
  }

  lemma IndirectIsLogged(t: Chunk)
    requires OneTxn(SB, Start(), t) && Shape(t.after) && |t.after.inodes| > 0
    requires var ind := t.after.inodes[0].addrs[NDIRECT]; SB.datastart <= ind && Addr(t.after, SlotOf(0, 12)) != 0
    ensures t.after.inodes[0].addrs[NDIRECT] in t.logged
  {
    hide Start, OneTxn, Word, At;
    var ind := t.after.inodes[0].addrs[NDIRECT];
    assert Word(At(t.after.mem, ind), 0) != 0;
    StartIsZero(ind);
    ZeroWord(0);
    ChangedIsLogged(SB, Start(), t, ind);
  }

  lemma InodeIsLogged(t: Chunk)
    requires FsOk(SB, Start()) && OneTxn(SB, Start(), t) && FsOk(SB, t.after)
    requires 0 < |t.after.inodes| == |Start().inodes| && t.after.inodes[0] != Start().inodes[0]
    ensures IBlock(SB, 0) in t.logged
  {
    hide Start, OneTxn, Inv, FilesOk, InodeAt, At;
    assert DiskInode(SB, t.after.mem, 0) != DiskInode(SB, Start().mem, 0);
    ChangedIsLogged(SB, Start(), t, IBlock(SB, 0));
  }

  predicate Distinct4(a: nat, b: nat, c: nat, d: nat) {
    a != b && a != c && a != d && b != c && b != d && c != d
  }

  lemma TenBlocks(sb: Super, a0: nat, a1: nat, a2: nat, a3: nat, ind: nat, x: nat, l: set<nat>)
    requires ValidSuper(sb) && x < sb.bmapstart && x in l
    requires sb.datastart <= a0 < sb.size && sb.datastart <= a1 < sb.size && sb.datastart <= a2 < sb.size
    requires sb.datastart <= a3 < sb.size && sb.datastart <= ind < sb.size
    requires Distinct4(a0, a1, a2, a3) && ind != a0 && ind != a1 && ind != a2 && ind != a3
    requires Distinct4(BBlock(sb, a1), BBlock(sb, a2), BBlock(sb, a3), BBlock(sb, ind))
    requires {a0, a1, a2, a3, ind} <= l && {BBlock(sb, a1), BBlock(sb, a2), BBlock(sb, a3), BBlock(sb, ind)} <= l
    ensures |l| >= 10
  {
    hide BBlock;
    BBlockIsMeta(sb, a1);
    BBlockIsMeta(sb, a2);
    BBlockIsMeta(sb, a3);
    BBlockIsMeta(sb, ind);
    var data := {a0, a1, a2, a3, ind};
    var bits := {BBlock(sb, a1), BBlock(sb, a2), BBlock(sb, a3), BBlock(sb, ind)};
    FiveOf(a0, a1, a2, a3, ind);
    FourOf(BBlock(sb, a1), BBlock(sb, a2), BBlock(sb, a3), BBlock(sb, ind));
    assert forall y | y in data :: y >= sb.datastart;
    assert forall y | y in bits :: sb.bmapstart <= y < sb.datastart;
    SubsetSize(data + bits + {x}, l);
  }

  lemma FourOf(a: nat, b: nat, c: nat, d: nat)
    requires Distinct4(a, b, c, d)
    ensures |{a, b, c, d}| == 4
  {
  }

  lemma FiveOf(a: nat, b: nat, c: nat, d: nat, e: nat)
    requires Distinct4(a, b, c, d) && e != a && e != b && e != c && e != d
    ensures |{a, b, c, d, e}| == 5
  {
    FourOf(a, b, c, d);
    assert {a, b, c, d, e} == {a, b, c, d} + {e};
  }

  lemma HolesApart4(a: nat, b: nat, c: nat, d: nat)
    requires Hole(a) && Hole(b) && Hole(c) && Hole(d) && Distinct4(a, b, c, d)
    ensures Distinct4(BBlock(SB, a), BBlock(SB, b), BBlock(SB, c), BBlock(SB, d))
  {
    hide Hole, BBlock;
    HolesApart(a, b);
    HolesApart(a, c);
    HolesApart(a, d);
    HolesApart(b, c);
    HolesApart(b, d);
    HolesApart(c, d);
  }

  /** File 0 has twelve blocks, the last with one byte, and no indirect block. */
  lemma BeforeWrite()
    ensures FsOk(SB, Start()) && |Start().inodes| == NINODES && Start().inodes[0].size == OFF
    ensures forall bn: nat | 12 <= bn <= 14 :: IsSlot(Start(), SlotOf(0, bn)) && Addr(Start(), SlotOf(0, bn)) == 0
    ensures IsSlot(Start(), Slot(0, NDIRECT)) && Addr(Start(), Slot(0, NDIRECT)) == 0
  {
    hide Image, DiskInode, Addr, FirstFile, FsOk;
    StartOk();
    StartInodes();
    forall bn: nat | 12 <= bn <= 14 ensures Addr(Start(), SlotOf(0, bn)) == 0 {
      StartAddr(SlotOf(0, bn));
    }
    StartAddr(Slot(0, NDIRECT));
  }

  lemma AfterWrite(f: Fs, g: Fs)
    requires FsOk(SB, g) && Wrote(f, g, 0, OFF, Ones(CHUNK)) && f.inodes[0].size == OFF
    ensures |g.inodes| == |f.inodes| && KeepsAddrs(f, g) && g.inodes[0].size == OFF + CHUNK
    ensures forall bn: nat | 11 <= bn <= 14 :: IsSlot(g, SlotOf(0, bn)) && Addr(g, SlotOf(0, bn)) != 0
    ensures IsSlot(g, Slot(0, NDIRECT)) && Addr(g, Slot(0, NDIRECT)) == g.inodes[0].addrs[NDIRECT] != 0
  {
    hide Inv, KeepsAddrs, Contents, DiskInode, Word, At;
    WroteSize(f, g, 0, OFF, Ones(CHUNK));
    assert Addr(g, SlotOf(0, 12)) != 0;
  }

  /** The write logs ten blocks: four of data, the new indirect block, a bitmap block for each of
      the four new blocks, and the inode. */
  lemma LogsTen(t: Chunk)
    requires OneTxn(SB, Start(), t) && FsOk(SB, t.after) && Wrote(Start(), t.after, 0, OFF, Ones(CHUNK))
    ensures |t.logged| == MAXOPBLOCKS
  {
    hide Start, OneTxn, Addr, Wrote, Bit, BitsOk, DiskInode, Hole, BBlock, IBlock, FilesOk, Ones, Contents;
    var g := t.after;
    var s0, s1, s2, s3, si := SlotOf(0, 11), SlotOf(0, 12), SlotOf(0, 13), SlotOf(0, 14), Slot(0, NDIRECT);
    BeforeWrite();
    AfterWrite(Start(), g);
    TxnSize(SB, Start(), t);
    NewBlock(t, s1);
    NewBlock(t, s2);
    NewBlock(t, s3);
    NewBlock(t, si);
    DataIsLogged(t, 11, Addr(g, s0));
    DataIsLogged(t, 12, Addr(g, s1));
    DataIsLogged(t, 13, Addr(g, s2));
    DataIsLogged(t, 14, Addr(g, s3));
    IndirectIsLogged(t);
    InodeIsLogged(t);
    InodeBlockIsMeta(SB, NINODES, 0);
    HolesApart4(Addr(g, s1), Addr(g, s2), Addr(g, s3), Addr(g, si));
    TenBlocks(SB, Addr(g, s0), Addr(g, s1), Addr(g, s2), Addr(g, s3), Addr(g, si), IBlock(SB, 0), t.logged);
  }

  /** The bound of a chunk is met: a write across the last direct block and three new indirect
      ones, on a disk whose clear blocks lie in different bitmap blocks. */
  method ChunkBoundIsTight() returns (r: WriteResult, ghost f: Fs, ghost t: Chunk)
    ensures r == Ret(3 * BSIZE)
    ensures FsOk(SB, f) && OneTxn(SB, f, t) && Wrote(f, t.after, 0, OFF, Ones(3 * BSIZE))
    ensures |t.logged| == MAXOPBLOCKS
  {
    hide Bit, OneTxn, Wrote, Start, Ones, FsOk, Chained, ChunksWrote, WroteOr, After, ChunkCount;
    BeforeWrite();
    f := Start();
    var fs := Mounted();
    var newoff;
    ghost var txns, k;
    r, newoff, txns, k := fs.Filewrite(0, OFF, Ones(3 * BSIZE), 3 * BSIZE);
    SingleChunk(f, txns, k);
    t := txns[0];
    NotUsedUp(t);
    WholeWrite(f, fs.S(), k);
    LogsTen(t);
  }

  lemma SingleChunk(f: Fs, txns: seq<Chunk>, k: nat)
    requires Chained(SB, f, txns) && k <= CHUNK && |txns| == ChunkCount(CHUNK, k)
    requires k < CHUNK ==> k == (|txns| - 1) * CHUNK
    ensures |txns| == 1 && OneTxn(SB, f, txns[0]) && After(f, txns, 1) == txns[0].after
  {
    hide OneTxn;
    assert After(f, txns, 0) == f;
  }

  lemma WholeWrite(f: Fs, g: Fs, k: nat)
    requires k == CHUNK && WroteOr(f, g, 0, OFF, Ones(CHUNK)[..k]) && 0 < |f.inodes| && f.inodes[0].size == OFF
    ensures Wrote(f, g, 0, OFF, Ones(CHUNK))
  {
    hide Wrote;
    assert Ones(CHUNK)[..k] == Ones(CHUNK);
  }

  method Mounted() returns (fs: FileSystem)
    ensures fs.Valid() && fs.sb == SB && fs.S() == Start() && fresh(fs)
  {
    hide Image, DiskInode, Bit, Addr;
    StartOk();
    fs := new FileSystem.Mount(SB, Image(NINODES), NINODES, OWNERS);
  }

  // ------------------------------------------------------------------ what a truncation logs

  /** The bitmap blocks that have bits of data blocks. */
  ghost function DataBitmaps(sb: Super): (n: nat)
    requires ValidSuper(sb)
  {
    if sb.datastart == sb.size then 0 else (sb.size - 1) / BPB - sb.datastart / BPB + 1
  }

  /** Truncating a file logs its inode and, once each, the bitmap blocks of its blocks. */
  lemma TruncCost(sb: Super, f: Fs, i: nat)
    requires FsOk(sb, f) && i < |f.inodes|
    ensures |TruncSet(sb, f, i)| == |BitBlocks(sb, OwnedBy(f, i))| + 1 <= DataBitmaps(sb) + 1
  {
    hide FilesOk, DiskInode, Addr, Bit, BitsOk, BBlock, IBlock;
    InodeBlockIsMeta(sb, |f.inodes|, i);
    var bits := BitBlocks(sb, OwnedBy(f, i));
    forall b | b in bits ensures sb.bmapstart <= b && b in Interval(BBlock(sb, sb.datastart), DataBitmaps(sb)) {
      var a :| a in OwnedBy(f, i) && b == BBlock(sb, a);
      assert sb.datastart <= a < sb.size;
      BitmapOfData(sb, a);
    }
    SubsetSize(bits, Interval(BBlock(sb, sb.datastart), DataBitmaps(sb)));
  }

  lemma BitmapOfData(sb: Super, a: nat)
    requires ValidSuper(sb) && sb.datastart <= a < sb.size
    ensures sb.bmapstart <= BBlock(sb, sb.datastart) <= BBlock(sb, a) < BBlock(sb, sb.datastart) + DataBitmaps(sb)
  {
  }

  /** A data block in the k-th of those bitmap blocks. */
  ghost function SpreadBlock(sb: Super, k: nat): (b: nat) {
    if k == 0 then sb.datastart else (sb.datastart / BPB + k) * BPB
  }

  lemma SpreadBlockIn(sb: Super, k: nat)
    requires ValidSuper(sb) && k < DataBitmaps(sb)
    ensures sb.datastart <= SpreadBlock(sb, k) < sb.size && BBlock(sb, SpreadBlock(sb, k)) == BBlock(sb, sb.datastart) + k
  {
  }

  ghost function SpreadMarks(sb: Super, n: nat): (d: Disk) {
    if n == 0 then Marked(sb, sb.datastart) else PutBit(sb, SpreadMarks(sb, n - 1), SpreadBlock(sb, n - 1), true)
  }

  lemma {:induction false} SpreadBits(sb: Super, n: nat, c: nat)
    ensures Bit(sb, SpreadMarks(sb, n), c) <==> c < sb.datastart || exists k: nat | k < n :: c == SpreadBlock(sb, k)
  {
    hide Bit, PutBit, SpreadBlock, Marked;
    if n == 0 {
      MarkedBits(sb, sb.datastart, c);
    } else {
      SpreadBits(sb, n - 1, c);
      BitPutBit(sb, SpreadMarks(sb, n - 1), SpreadBlock(sb, n - 1), true, c);
    }
  }

  /** One file, with a block in each of ten bitmap blocks. */
  ghost function Spread(sb: Super): (f: Fs)
    requires ValidSuper(sb) && DataBitmaps(sb) >= 10
    ensures Shape(f)
  {
    var addrs := seq<Uint>(10, k requires 0 <= k < 10 => SpreadBlockIn(sb, k); SpreadBlock(sb, k)) + [0, 0, 0];
    Fs(SpreadMarks(sb, 10), [Inode(10 * BSIZE, addrs)], SpreadOwners(sb))
  }

  ghost function SpreadOwners(sb: Super): (m: map<nat, Slot>)
    requires ValidSuper(sb) && DataBitmaps(sb) >= 10
    ensures forall b :: b in m <==> exists k: nat | k < 10 :: b == SpreadBlock(sb, k)
    ensures forall k: nat | k < 10 :: SpreadBlock(sb, k) in m && m[SpreadBlock(sb, k)] == Slot(0, k)
  {
    assert forall k: nat | k < 10 :: BBlock(sb, SpreadBlock(sb, k)) == BBlock(sb, sb.datastart) + k by {
      forall k: nat | k < 10 ensures BBlock(sb, SpreadBlock(sb, k)) == BBlock(sb, sb.datastart) + k {
        SpreadBlockIn(sb, k);
      }
    }
    map k: nat | k < 10 :: SpreadBlock(sb, k) := Slot(0, k)
  }

  lemma SpreadAddr(sb: Super, s: Slot)
    requires ValidSuper(sb) && DataBitmaps(sb) >= 10 && IsSlot(Spread(sb), s)
    ensures Addr(Spread(sb), s) == if s.k < 10 then SpreadBlock(sb, s.k) else 0
  {
    hide SpreadMarks, SpreadOwners, SpreadBlock;
  }

  lemma SpreadOk(sb: Super)
    requires ValidSuper(sb) && DataBitmaps(sb) >= 10
    ensures Inv(sb, Spread(sb), {}) && FilesOk(Spread(sb))
  {
    hide SpreadMarks, SpreadOwners, SpreadBlock, Addr, Bit, DataBitmaps;
    var f := Spread(sb);
    forall s: Slot | IsSlot(f, s) && Addr(f, s) != 0 ensures Addr(f, s) in f.owner && f.owner[Addr(f, s)] == s {
      SpreadAddr(sb, s);
    }
    forall a | a in f.owner ensures sb.datastart <= a < sb.size && IsSlot(f, f.owner[a]) && Addr(f, f.owner[a]) == a {
      var k: nat :| k < 10 && a == SpreadBlock(sb, k);
      SpreadBlockIn(sb, k);
      SpreadAddr(sb, Slot(0, k));
    }
    forall b: nat | b < sb.size ensures Bit(sb, f.mem, b) <==> b < sb.datastart || b in f.owner {
      SpreadBits(sb, 10, b);
    }
    forall bn: nat | bn < MAXFILE && bn * BSIZE < 10 * BSIZE ensures Addr(f, SlotOf(0, bn)) != 0 {
      SpreadAddr(sb, SlotOf(0, bn));
      SpreadBlockIn(sb, bn);
    }
  }

  /** Truncating that file logs eleven blocks. */
  lemma SpreadCost(sb: Super, f: Fs)
    requires ValidSuper(sb) && DataBitmaps(sb) >= 10 && f.owner == SpreadOwners(sb)
    ensures |BitBlocks(sb, OwnedBy(f, 0))| >= 10
  {
    hide SpreadOwners, SpreadBlock, DataBitmaps, BBlock, BitBlocks, OwnedBy, Interval;
    forall b | b in Interval(BBlock(sb, sb.datastart), 10) ensures b in BitBlocks(sb, OwnedBy(f, 0)) {
      SpreadBit(sb, f, b - BBlock(sb, sb.datastart));
    }
    SubsetSize(Interval(BBlock(sb, sb.datastart), 10), BitBlocks(sb, OwnedBy(f, 0)));
  }

  lemma SpreadBit(sb: Super, f: Fs, k: nat)
    requires ValidSuper(sb) && DataBitmaps(sb) >= 10 && f.owner == SpreadOwners(sb) && k < 10
    ensures BBlock(sb, sb.datastart) + k in BitBlocks(sb, OwnedBy(f, 0))
  {
    hide DataBitmaps, BBlock, SpreadBlock, SpreadOwners;
    SpreadBlockIn(sb, k);
    SpreadOwner(sb, k);
    assert SpreadBlock(sb, k) in OwnedBy(f, 0);
  }

  lemma SpreadOwner(sb: Super, k: nat)
    requires ValidSuper(sb) && DataBitmaps(sb) >= 10 && k < 10
    ensures SpreadBlock(sb, k) in SpreadOwners(sb) && SpreadOwners(sb)[SpreadBlock(sb, k)] == Slot(0, k)
  {
  }

  /** Every truncation stays within the blocks an operation may log exactly on the disks whose data
      blocks have fewer than MAXOPBLOCKS bitmap blocks. */
  lemma TruncFitsIff(sb: Super)
    requires ValidSuper(sb)
    ensures (forall f: Fs, i: nat | FsOk(sb, f) && i < |f.inodes| :: |TruncSet(sb, f, i)| <= MAXOPBLOCKS)
       <==> DataBitmaps(sb) < MAXOPBLOCKS
  {
    hide FsOk, TruncSet, DataBitmaps;
    if DataBitmaps(sb) < MAXOPBLOCKS {
      forall f: Fs, i: nat | FsOk(sb, f) && i < |f.inodes| ensures |TruncSet(sb, f, i)| <= MAXOPBLOCKS {
        TruncCost(sb, f, i);
      }
    } else {
      var g := Updated(sb, Spread(sb), 0);
      SpreadFs(sb);
      TruncCost(sb, g, 0);
      SpreadCost(sb, g);
      assert FsOk(sb, g) && |TruncSet(sb, g, 0)| > MAXOPBLOCKS;
    }
  }

  lemma SpreadFs(sb: Super)
    requires ValidSuper(sb) && DataBitmaps(sb) >= 10
    ensures FsOk(sb, Updated(sb, Spread(sb), 0))
  {
    hide Inv, FilesOk, FsOk, DataBitmaps, SpreadOwners, SpreadMarks, Contents, Addr;
    SpreadOk(sb);
    assert InodesFit(sb, 1);
    UpdatedKeeps(sb, Spread(sb), 0);
  }
}
