/** A filewrite over the log: each chunk is one transaction, so a crash anywhere leaves on disk the
    file system as it was between two chunks. */
module FileCrash {
  import opened Blocks
  import opened Common
  import opened FsModel
  import opened FsWrite
  import opened FileSys
  import L = LogCrash

  // ------------------------------------------------------------------ one chunk as a transaction

  /** The commit t holds each block that the chunk logged, once, as the chunk left it. */
  ghost predicate Commits(t: L.Txn, c: Chunk) {
    && |t.blocks| == |t.data|
    && (forall j | 0 <= j < |t.blocks| :: t.blocks[j] in c.logged && t.data[j] == At(c.after.mem, t.blocks[j]))
    && (forall b | b in c.logged :: b in t.blocks)
  }

  lemma ApplyChunk(sb: Super, l: L.Layout, d: Disk, t: L.Txn, f: Fs, c: Chunk)
    requires L.ValidTxn(l, t) && Commits(t, c) && OneTxn(sb, f, c) && L.SameHome(l, d, f.mem)
    ensures L.SameHome(l, L.ApplyTxn(d, t), c.after.mem)
  {
    hide L.ApplyTxn, At;
    L.ApplyInstall(d, t.blocks, t.data);
    InstallIsApply(d, t);
    forall b: nat | !L.InLog(l, b) ensures At(L.ApplyTxn(d, t), b) == At(c.after.mem, b) {
      if b in t.blocks {
        var j :| 0 <= j < |t.blocks| && t.blocks[j] == b;
      }
    }
  }

  lemma InstallIsApply(d: Disk, t: L.Txn)
    requires |t.blocks| == |t.data|
    ensures L.ApplyTxn(d, t) == ApplyWrites(d, L.InstallWrites(t.blocks, t.data))
  {
  }

  ghost function Listed(s: set<nat>): (r: seq<nat>)
    ensures |r| == |s| && (forall b :: b in s <==> b in r)
    ensures forall j, k | 0 <= j < k < |r| :: r[j] != r[k]
  {
    if s == {} then [] else
      var b :| b in s;
      Listed(s - {b}) + [b]
  }

  /** Every chunk that logged something fits the log as one transaction. */
  lemma ChunkCommits(sb: Super, l: L.Layout, f: Fs, c: Chunk)
    requires OneTxn(sb, f, c) && c.logged != {} && sb.size < UINT_LIMIT
    requires l.start + l.size <= sb.inodestart && l.size > MAXOPBLOCKS
    ensures exists t :: L.ValidTxn(l, t) && Commits(t, c)
  {
    hide At;
    var bs := Listed(c.logged);
    assert forall j | 0 <= j < |bs| :: bs[j] in c.logged && bs[j] < UINT_LIMIT;
    var blocks := seq<Uint>(|bs|, j requires 0 <= j < |bs| => bs[j]);
    assert blocks == bs;
    var t := L.Txn(blocks, seq<Block>(|bs|, j requires 0 <= j < |bs| => At(c.after.mem, bs[j])));
    assert Commits(t, c);
    assert L.ValidTxn(l, t);
  }

  // ------------------------------------------------------------------ runs of the log

  /** The commits of a run are those of the chunks in order, and none begins after a crash: the
      process that wrote is gone. */
  ghost predicate ChunkRun(l: L.Layout, states: seq<L.State>, steps: seq<L.Step>, txns: seq<Chunk>) {
    && L.Run(l, states, steps)
    && (forall j, k | 0 <= j < k < |steps| && steps[j].Crash? :: !steps[k].Begin?)
    && (forall k | 0 <= k < |states| :: CommitsInOrder(states[k].started, txns))
  }

  ghost predicate CommitsInOrder(started: seq<L.Txn>, txns: seq<Chunk>) {
    |started| <= |txns| && forall j | 0 <= j < |started| :: Commits(started[j], txns[j])
  }

  /** The durable transactions are the first ones: all that began, or all but the last. */
  ghost predicate InOrder(s: L.State, crashed: bool) {
    && (forall j | 0 <= j < |s.durable| :: s.durable[j] == j)
    && |s.durable| <= |s.started| <= |s.durable| + 1
    && (!crashed ==> s.mode.Committing? || (s.mode.Running? && |s.durable| == |s.started|))
    && (s.mode.Committing? ==>
          && !crashed && s.mode.id == |s.started| - 1
          && (|s.durable| == |s.started| <==> s.mode.done > |s.started[s.mode.id].data|))
  }

  lemma InOrderStep(l: L.Layout, s: L.State, step: L.Step, s': L.State, crashed: bool)
    requires InOrder(s, crashed) && L.Next(l, s, step, s') && (crashed ==> !step.Begin?)
    ensures InOrder(s', crashed || step.Crash?)
  {
    hide L.ValidBlocks, L.SaneCount, L.RecoveryWrites;
  }

  ghost predicate Crashed(steps: seq<L.Step>, k: nat)
    requires k <= |steps|
  {
    exists j | 0 <= j < k :: steps[j].Crash?
  }

  lemma {:induction false} RunInOrder(l: L.Layout, d: Disk, states: seq<L.State>, steps: seq<L.Step>, txns: seq<Chunk>, k: nat)
    requires ChunkRun(l, states, steps, txns) && L.Init(l, d, states[0]) && k < |states|
    ensures InOrder(states[k], Crashed(steps, k))
  {
    hide L.Next, InOrder, CommitsInOrder;
    if k == 0 {
      StartsInOrder(l, d, states[0]);
    } else {
      RunInOrder(l, d, states, steps, txns, k - 1);
      assert L.Next(l, states[k - 1], steps[k - 1], states[k]);
      InOrderStep(l, states[k - 1], steps[k - 1], states[k], Crashed(steps, k - 1));
      assert Crashed(steps, k) <==> Crashed(steps, k - 1) || steps[k - 1].Crash?;
    }
  }

  lemma StartsInOrder(l: L.Layout, d: Disk, s: L.State)
    requires L.Init(l, d, s)
    ensures InOrder(s, false)
  {
  }

  // ------------------------------------------------------------------ what is on disk after a crash

  lemma {:induction false} ReplayIsAfter(sb: Super, l: L.Layout, f0: Fs, txns: seq<Chunk>, d: Disk, started: seq<L.Txn>, ids: seq<nat>)
    requires Chained(sb, f0, txns) && CommitsInOrder(started, txns) && L.SameHome(l, d, f0.mem)
    requires forall t | t in started :: L.ValidTxn(l, t)
    requires |ids| <= |started| && forall j | 0 <= j < |ids| :: ids[j] == j
    ensures L.SameHome(l, L.Replay(d, started, ids), After(f0, txns, |ids|).mem)
  {
    hide L.ApplyTxn, L.ValidTxn, Commits, OneTxn, L.SameHome;
    ValidLengths(l, started);
    if ids != [] {
      var m := |ids| - 1;
      ReplayIsAfter(sb, l, f0, txns, d, started, ids[..m]);
      assert started[m] in started && ids[m] == m;
      ApplyChunk(sb, l, L.Replay(d, started, ids[..m]), started[m], After(f0, txns, m), txns[m]);
    }
  }

  lemma ValidLengths(l: L.Layout, started: seq<L.Txn>)
    requires forall t | t in started :: L.ValidTxn(l, t)
    ensures forall t | t in started :: |t.blocks| == |t.data|
  {
  }

  /** Whenever the machine is up, the home blocks on disk are those after the first m chunks, where
      m counts every chunk whose commit returned, and at most the last one begun is missing. */
  lemma ChunkBoundary(sb: Super, l: L.Layout, f0: Fs, txns: seq<Chunk>, d: Disk, states: seq<L.State>, steps: seq<L.Step>, k: nat)
    requires l.size > 0 && Chained(sb, f0, txns) && L.SameHome(l, d, f0.mem)
    requires ChunkRun(l, states, steps, txns) && L.Init(l, d, states[0]) && k < |states| && states[k].mode.Running?
    ensures var s, m := states[k], |states[k].durable|;
            && m <= |s.started| <= m + 1 && m <= |txns|
            && (forall id | id in s.finished :: id < m)
            && L.SameHome(l, s.disk, After(f0, txns, m).mem)
  {
    hide Chained, L.Init, L.ValidTxn, Commits, L.SameHome, L.Replay, L.Next;
    L.CrashSafety(l, d, states, steps, k);
    RunInOrder(l, d, states, steps, txns, k);
    var s := states[k];
    ValidLengths(l, s.started);
    ReplayIsAfter(sb, l, f0, txns, d, s.started, s.durable);
    HomeTwice(l, s.disk, L.Replay(d, s.started, s.durable), After(f0, txns, |s.durable|).mem);
  }

  lemma HomeTwice(l: L.Layout, a: Disk, b: Disk, c: Disk)
    requires L.SameHome(l, a, b) && L.SameHome(l, b, c)
    ensures L.SameHome(l, a, c)
  {
  }

  /** A disk with the home blocks of a file system in order holds that file system. */
  lemma ReadBack(sb: Super, l: L.Layout, f: Fs, d: Disk)
    requires FsOk(sb, f) && L.SameHome(l, d, f.mem) && l.start + l.size <= sb.inodestart
    ensures var g := OnDisk(sb, d, |f.inodes|, f.owner);
            && FsOk(sb, g) && g.inodes == f.inodes
            && (forall s: Slot | IsSlot(f, s) :: Addr(g, s) == Addr(f, s))
            && (forall j | 0 <= j < |f.inodes| :: Contents(g, j) == Contents(f, j))
  {
    hide Bit, Addr, Word, At, InodeAt, IBlock, FilesOk, Contents;
    var g := OnDisk(sb, d, |f.inodes|, f.owner);
    forall i | 0 <= i < |f.inodes| ensures g.inodes[i] == f.inodes[i] {
      InodeBlockIsMeta(sb, |f.inodes|, i);
    }
    assert g == f.(mem := d);
    forall a | a in f.owner ensures At(d, a) == At(f.mem, a) {
    }
    OwnedFrame(sb, f, d);
    forall c: nat | c < sb.size ensures Bit(sb, d, c) == Bit(sb, f.mem, c) {
      BBlockIsMeta(sb, c);
      BitFrame(sb, f.mem, d, c);
    }
    GrowsByMeta(sb, f, g);
    GrowsKeepsFiles(f, g);
  }

  /** The bytes of src that the first m chunks of a filewrite storing kept bytes put in the file. */
  ghost function StoredBy(m: nat, kept: nat): (e: nat)
    ensures e <= kept
  {
    if m == 0 then 0 else ChunkEnd(m - 1, kept)
  }

  lemma BetweenChunks(sb: Super, f0: Fs, txns: seq<Chunk>, c: nat, i: nat, off: nat, src: seq<Byte>, kept: nat, m: nat)
    requires FsOk(sb, f0) && i < |f0.inodes| && off <= f0.inodes[i].size
    requires ChunksWrote(sb, f0, txns, c, i, off, src, kept) && m <= c
    ensures FsOk(sb, After(f0, txns, m)) && Wrote(f0, After(f0, txns, m), i, off, src[..StoredBy(m, kept)])
    ensures |After(f0, txns, m).inodes| == |f0.inodes|
  {
    hide Contents, Splice, KeepsAddrs;
    if m == 0 {
      WroteNothing(f0, i, off);
      assert src[..0] == [];
    } else {
      assert ChunkWrote(sb, f0, txns[m - 1], i, off, src[..ChunkEnd(m - 1, kept)]);
    }
  }

  lemma WroteOnDisk(sb: Super, l: L.Layout, f0: Fs, f: Fs, d: Disk, i: nat, off: nat, data: seq<Byte>)
    requires FsOk(sb, f) && L.SameHome(l, d, f.mem) && l.start + l.size <= sb.inodestart
    requires Wrote(f0, f, i, off, data)
    ensures Wrote(f0, OnDisk(sb, d, |f.inodes|, f.owner), i, off, data)
  {
    hide Inv, FilesOk, DiskInode, Addr, Contents, Splice, L.SameHome, OnDisk;
    ReadBack(sb, l, f, d);
    var g := OnDisk(sb, d, |f.inodes|, f.owner);
    WroteIs(f0, f, g, i, off, data);
  }

  /** A crash during filewrite, which sent the chunks txns and commits the first c of them: mounting
      the recovered disk gives a file system in order in which file i has the bytes of the first m
      chunks, all of them, and no other byte of src, and every other file is as before. Every chunk
      whose end_op returned is among them. */
  lemma FilewriteIsAtomic(sb: Super, l: L.Layout, f0: Fs, txns: seq<Chunk>, c: nat, i: nat, off: nat, src: seq<Byte>, kept: nat,
                          d: Disk, states: seq<L.State>, steps: seq<L.Step>, k: nat)
    requires l.size > 0 && l.start + l.size <= sb.inodestart
    requires FsOk(sb, f0) && i < |f0.inodes| && off <= f0.inodes[i].size && Chained(sb, f0, txns)
    requires ChunksWrote(sb, f0, txns, c, i, off, src, kept)
    requires ChunkRun(l, states, steps, txns) && L.Init(l, d, states[0]) && L.SameHome(l, d, f0.mem)
    requires k < |states| && states[k].mode.Running? && |states[k].started| <= c
    ensures var m := |states[k].durable|;
            && |states[k].started| <= m + 1 && (forall id | id in states[k].finished :: id < m)
            && m <= |txns| && Wrote(f0, OnDisk(sb, states[k].disk, |f0.inodes|, After(f0, txns, m).owner), i, off, src[..StoredBy(m, kept)])
            && FsOk(sb, OnDisk(sb, states[k].disk, |f0.inodes|, After(f0, txns, m).owner))
  {
    hide FsOk, Wrote, Chained, L.SameHome, L.Init, L.Run, OnDisk;
    ChunkBoundary(sb, l, f0, txns, d, states, steps, k);
    var m := |states[k].durable|;
    var f := After(f0, txns, m);
    BetweenChunks(sb, f0, txns, c, i, off, src, kept, m);
    ReadBack(sb, l, f, states[k].disk);
    WroteOnDisk(sb, l, f0, f, states[k].disk, i, off, src[..StoredBy(m, kept)]);
  }
}
