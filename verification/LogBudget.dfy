/** Log space across concurrent file system operations (begin_op, log_write and end_op of
    kernel/log.c), as a step system over every interleaving of the operations. */
module LogBudget {
  import opened Common

  /** blocks: the logged block numbers. ops: the operations between begin_op and end_op, each with
      the number of new blocks it may still log, out of MAXOPBLOCKS. */
  datatype Book = Book(blocks: seq<nat>, ops: map<nat, nat>, committing: bool)

  datatype Step = Begin(op: nat) | Log(op: nat, b: nat) | End(op: nat) | CommitDone

  /** log_write panics: the transaction is too big for the log of log.size blocks. */
  predicate TooBig(s: Book, size: nat) {
    |s.blocks| >= LOGSIZE || |s.blocks| >= size - 1
  }

  /** The guard of begin_op's wait loop. */
  predicate Admits(s: Book) {
    !s.committing && |s.blocks| + (|s.ops| + 1) * MAXOPBLOCKS <= LOGSIZE
  }

  /** The steps that do not panic, by operations that keep to their budget of new blocks. */
  ghost predicate Next(size: nat, s: Book, step: Step, s': Book) {
    match step
    case Begin(op) =>
      op !in s.ops && Admits(s) && s' == s.(ops := s.ops[op := MAXOPBLOCKS])
    case Log(op, b) =>
      && op in s.ops && !TooBig(s, size)
      && if b in s.blocks then s' == s
         else s.ops[op] > 0 && s' == s.(blocks := s.blocks + [b], ops := s.ops[op := s.ops[op] - 1])
    case End(op) =>
      && op in s.ops && !s.committing
      && s' == s.(ops := s.ops - {op}, committing := s.ops.Keys == {op})
    case CommitDone =>
      s.committing && s' == s.(blocks := [], committing := false)
  }

  /** end_op by op, with the commit if it was the last. */
  ghost predicate Ended(size: nat, s: Book, op: nat, s': Book) {
    exists mid :: Next(size, s, End(op), mid) && if mid.committing then Next(size, mid, CommitDone, s') else s' == mid
  }

  const START := Book([], map[], false)

  ghost predicate Run(size: nat, states: seq<Book>, steps: seq<Step>) {
    && |states| == |steps| + 1 && states[0] == START
    && forall k | 0 <= k < |steps| :: Next(size, states[k], steps[k], states[k + 1])
  }

  ghost predicate Reachable(size: nat, s: Book) {
    exists states, steps :: Run(size, states, steps) && states[|states| - 1] == s
  }

  // ------------------------------------------------------------------ budgets

  ghost function Total(m: map<nat, nat>): (r: nat)
    decreases |m|
  {
    if m == map[] then 0
    else
      var k :| k in m;
      m[k] + Total(m - {k})
  }

  lemma {:induction false} TotalSplit(m: map<nat, nat>, k: nat)
    requires k in m
    ensures Total(m) == m[k] + Total(m - {k})
    decreases |m|
  {
    assert m != map[];
    var j :| j in m && Total(m) == m[j] + Total(m - {j});
    if j != k {
      TotalSplit(m - {j}, k);
      TotalSplit(m - {k}, j);
      assert m - {j} - {k} == m - {k} - {j};
    }
  }

  lemma TotalUpdate(m: map<nat, nat>, k: nat, v: nat)
    ensures Total(m[k := v]) == v + Total(m - {k})
  {
    TotalSplit(m[k := v], k);
    assert m[k := v] - {k} == m - {k};
  }

  lemma {:induction false} TotalBound(m: map<nat, nat>)
    requires forall k | k in m :: m[k] <= MAXOPBLOCKS
    ensures Total(m) <= |m| * MAXOPBLOCKS
    decreases |m|
  {
    if m != map[] {
      var k :| k in m;
      TotalSplit(m, k);
      assert (m - {k}).Keys == m.Keys - {k};
      TotalBound(m - {k});
    }
  }

  // ------------------------------------------------------------------ the invariant

  /** Logged blocks are distinct, and with every unused budget they still fit the log. */
  ghost predicate Inv(s: Book) {
    && |s.blocks| + Total(s.ops) <= LOGSIZE
    && (forall op | op in s.ops :: s.ops[op] <= MAXOPBLOCKS)
    && (forall i, j | 0 <= i < j < |s.blocks| :: s.blocks[i] != s.blocks[j])
    && (s.committing ==> s.ops == map[])
    && (s.ops == map[] && !s.committing ==> s.blocks == [])
  }

  lemma StepKeeps(size: nat, s: Book, step: Step, s': Book)
    requires Inv(s) && Next(size, s, step, s')
    ensures Inv(s')
  {
    hide Total;
    match step
    case Begin(op) =>
      assert s.ops - {op} == s.ops;
      TotalUpdate(s.ops, op, MAXOPBLOCKS);
      TotalBound(s.ops);
    case Log(op, b) =>
      if b !in s.blocks {
        TotalUpdate(s.ops, op, s.ops[op] - 1);
        TotalSplit(s.ops, op);
      }
      assert op in s'.ops;
    case End(op) =>
      TotalSplit(s.ops, op);
      if s.ops.Keys == {op} {
        assert (s.ops - {op}).Keys == {};
      }
      if s.ops.Keys != {op} {
        var other :| other in s.ops && other != op;
        assert other in s.ops - {op};
      }
    case CommitDone => TotalNone();
  }

  lemma TotalNone()
    ensures Total(map[]) == 0
  {
  }

  lemma {:induction false} RunKeeps(size: nat, states: seq<Book>, steps: seq<Step>, k: nat)
    requires Run(size, states, steps) && k < |states|
    ensures Inv(states[k])
  {
    if k > 0 {
      RunKeeps(size, states, steps, k - 1);
      StepKeeps(size, states[k - 1], steps[k - 1], states[k]);
    }
  }

  /** Over every interleaving, whatever log.size is. */
  lemma SpaceReserved(size: nat, s: Book)
    requires Reachable(size, s)
    ensures |s.blocks| + Total(s.ops) <= LOGSIZE
    ensures forall i, j | 0 <= i < j < |s.blocks| :: s.blocks[i] != s.blocks[j]
  {
    var states, steps :| Run(size, states, steps) && states[|states| - 1] == s;
    RunKeeps(size, states, steps, |steps|);
  }

  /** A waiting begin_op is admitted at once, or a commit runs, or another operation can end: it never
      waits for nobody. */
  lemma WaitsForSomebody(size: nat, s: Book, op: nat)
    requires Reachable(size, s) && op !in s.ops
    ensures || (exists s' :: Next(size, s, Begin(op), s'))
            || (exists s' :: Next(size, s, CommitDone, s'))
            || (exists o, s' :: Next(size, s, End(o), s'))
  {
    var states, steps :| Run(size, states, steps) && states[|states| - 1] == s;
    RunKeeps(size, states, steps, |steps|);
    if s.committing {
      assert Next(size, s, CommitDone, s.(blocks := [], committing := false));
    } else if s.ops == map[] {
      assert Next(size, s, Begin(op), s.(ops := s.ops[op := MAXOPBLOCKS]));
    } else {
      var o :| o in s.ops;
      assert Next(size, s, End(o), s.(ops := s.ops - {o}, committing := s.ops.Keys == {o}));
    }
  }

  // ------------------------------------------------------------------ room for an append

  /** An operation with budget left never meets the too-big panic. */
  ghost predicate AlwaysRoom(size: nat) {
    forall s, op | Reachable(size, s) && op in s.ops && s.ops[op] > 0 :: !TooBig(s, size)
  }

  lemma RoomWhenLarge(size: nat)
    requires size >= LOGSIZE + 1
    ensures AlwaysRoom(size)
  {
    forall s, op | Reachable(size, s) && op in s.ops && s.ops[op] > 0
      ensures !TooBig(s, size)
    {
      SpaceReserved(size, s);
      TotalSplit(s.ops, op);
    }
  }

  /** Three operations have begun and logged blocks 0 .. k-1, the first ones first. */
  ghost function Filled(k: nat): (s: Book)
    requires k <= LOGSIZE
  {
    Book(seq(k, i => i), map[0 := Left(k, 0), 1 := Left(k, 1), 2 := Left(k, 2)], false)
  }

  ghost function Left(k: nat, op: nat): (r: nat) {
    if k <= MAXOPBLOCKS * op then MAXOPBLOCKS
    else if k >= MAXOPBLOCKS * (op + 1) then 0
    else MAXOPBLOCKS * (op + 1) - k
  }

  lemma Extend(size: nat, s: Book, step: Step, s': Book)
    requires Reachable(size, s) && Next(size, s, step, s')
    ensures Reachable(size, s')
  {
    var states, steps :| Run(size, states, steps) && states[|states| - 1] == s;
    assert Run(size, states + [s'], steps + [step]);
    assert (states + [s'])[|states + [s']| - 1] == s';
  }

  lemma StartReachable(size: nat)
    ensures Reachable(size, START)
  {
    assert Run(size, [START], []) && [START][|[START]| - 1] == START;
  }

  lemma {:induction false} FilledReachable(size: nat, k: nat)
    requires k <= LOGSIZE && k <= size - 1
    ensures Reachable(size, Filled(k))
  {
    if k == 0 {
      ThreeBegin(size);
    } else {
      FilledReachable(size, k - 1);
      var s, op := Filled(k - 1), (k - 1) / MAXOPBLOCKS;
      assert seq(k, i => i) == seq(k - 1, i => i) + [k - 1];
      assert s.ops[op := s.ops[op] - 1] == Filled(k).ops;
      Extend(size, s, Log(op, k - 1), Filled(k));
    }
  }

  lemma ThreeBegin(size: nat)
    ensures Reachable(size, Filled(0))
  {
    StartReachable(size);
    var s1 := START.(ops := map[0 := MAXOPBLOCKS]);
    var s2 := START.(ops := map[0 := MAXOPBLOCKS, 1 := MAXOPBLOCKS]);
    Extend(size, START, Begin(0), s1);
    assert s1.ops.Keys == {0};
    Extend(size, s1, Begin(1), s2);
    assert s2.ops.Keys == {0, 1};
    Extend(size, s2, Begin(2), Filled(0));
  }

  lemma NoRoomWhenSmall(size: nat)
    requires size <= LOGSIZE
    ensures !AlwaysRoom(size)
  {
    var k := if size == 0 then 0 else size - 1;
    if size == 0 {
      ThreeBegin(size);
    } else {
      FilledReachable(size, k);
    }
    var s, op := Filled(k), k / MAXOPBLOCKS;
    assert op in s.ops && s.ops[op] > 0 && TooBig(s, size);
  }

  /** The reservation of begin_op suffices exactly when the log area has LOGSIZE+1 blocks; the
      file system image is made with only LOGSIZE (mkfs/mkfs.c). */
  lemma RoomIff(size: nat)
    ensures AlwaysRoom(size) <==> size >= LOGSIZE + 1
  {
    if size >= LOGSIZE + 1 {
      RoomWhenLarge(size);
    } else {
      NoRoomWhenSmall(size);
    }
  }

  /** Even then an absorbed write, which needs no room, panics once all budgets are spent. */
  lemma AbsorptionPanics(size: nat)
    requires size >= LOGSIZE + 1
    ensures exists s, op, b :: Reachable(size, s) && op in s.ops && b in s.blocks && TooBig(s, size)
  {
    FilledReachable(size, LOGSIZE);
    var s := Filled(LOGSIZE);
    assert s.blocks[0] == 0;
    assert 0 in s.ops && 0 in s.blocks && TooBig(s, size);
  }
}
