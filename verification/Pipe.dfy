/** The pipe of kernel/pipe.c: a ring of PIPESIZE bytes with 32-bit counters that wrap. Each
    method is what one process does between taking the pipe's lock and giving it up, by sleeping
    or by returning, so any interleaving of readers and writers is a sequence of calls. */
module Pipe {
  import opened Blocks

  const PIPESIZE: nat := 512

  function Inc(x: Uint): (r: Uint) {
    (x + 1) % UINT_LIMIT
  }

  function Occupancy(nread: Uint, nwrite: Uint): (n: nat)
    ensures n < UINT_LIMIT
  {
    (nwrite - nread) % UINT_LIMIT
  }

  /** The place in the ring of the byte with number x. */
  function Slot(x: nat): (r: nat)
    ensures r < PIPESIZE
  {
    x % PIPESIZE
  }

  /** The tests of the C code on the wrapped counters. */
  lemma CounterTests(nread: Uint, nwrite: Uint)
    ensures nread == nwrite <==> Occupancy(nread, nwrite) == 0
    ensures nwrite == (nread + PIPESIZE) % UINT_LIMIT <==> Occupancy(nread, nwrite) == PIPESIZE
  {
  }

  lemma CounterSteps(nread: Uint, nwrite: Uint)
    ensures Occupancy(nread, nwrite) < UINT_LIMIT - 1 ==> Occupancy(nread, Inc(nwrite)) == Occupancy(nread, nwrite) + 1
    ensures Occupancy(nread, nwrite) > 0 ==> Occupancy(Inc(nread), nwrite) == Occupancy(nread, nwrite) - 1
  {
  }

  /** The place in the ring is not disturbed by wrap-around, as PIPESIZE divides 2 to the 32. */
  lemma SameSlot(nread: Uint, nwrite: Uint, k: nat)
    ensures Slot(nread + Occupancy(nread, nwrite)) == Slot(nwrite)
    ensures Slot(Inc(nread) + k) == Slot(nread + 1 + k)
  {
    assert UINT_LIMIT == PIPESIZE * 0x80_0000;
    var n := Occupancy(nread, nwrite);
    assert nread + n == nwrite || nread + n == nwrite + UINT_LIMIT;
    assert (nwrite + PIPESIZE * 0x80_0000) % PIPESIZE == nwrite % PIPESIZE;
    assert Inc(nread) == nread + 1 || Inc(nread) + UINT_LIMIT == nread + 1;
    assert (Inc(nread) + k + PIPESIZE * 0x80_0000) % PIPESIZE == (Inc(nread) + k) % PIPESIZE;
  }

  /** The bytes in the ring, oldest first. */
  ghost function Ring(data: seq<Byte>, nread: Uint, n: nat): (r: seq<Byte>)
    requires |data| == PIPESIZE
    ensures |r| == n && forall k | 0 <= k < n :: r[k] == data[Slot(nread + k)]
  {
    seq<Byte>(n, k requires 0 <= k => data[Slot(nread + k)])
  }

  /** Storing at nwrite appends a byte, unless the ring is full. */
  lemma StoreAppends(data: seq<Byte>, nread: Uint, nwrite: Uint, ch: Byte)
    requires |data| == PIPESIZE && Occupancy(nread, nwrite) < PIPESIZE
    ensures Ring(data[Slot(nwrite) := ch], nread, Occupancy(nread, Inc(nwrite)))
         == Ring(data, nread, Occupancy(nread, nwrite)) + [ch]
  {
    var n := Occupancy(nread, nwrite);
    CounterSteps(nread, nwrite);
    SameSlot(nread, nwrite, 0);
    var was, now := Ring(data, nread, n), Ring(data[Slot(nwrite) := ch], nread, n + 1);
    forall k | 0 <= k < n ensures now[k] == was[k] {
      SlotsDiffer(nread + k, n - k);
    }
    assert now == was + [ch];
  }

  lemma SlotsDiffer(x: nat, d: nat)
    requires 0 < d < PIPESIZE
    ensures Slot(x) != Slot(x + d)
  {
  }

  /** Reading at nread takes the oldest byte. */
  lemma LoadRemoves(data: seq<Byte>, nread: Uint, nwrite: Uint)
    requires |data| == PIPESIZE && Occupancy(nread, nwrite) > 0
    ensures var ring := Ring(data, nread, Occupancy(nread, nwrite));
            && data[Slot(nread)] == ring[0]
            && Ring(data, Inc(nread), Occupancy(Inc(nread), nwrite)) == ring[1..]
  {
    var n := Occupancy(nread, nwrite);
    CounterSteps(nread, nwrite);
    var ring, rest := Ring(data, nread, n), Ring(data, Inc(nread), n - 1);
    forall k | 0 <= k < n - 1 ensures rest[k] == ring[1..][k] {
      SameSlot(nread, nwrite, k);
    }
  }

  lemma SliceGrows(s: seq<Byte>, i: nat, j: nat)
    requires i <= j < |s|
    ensures s[i..j + 1] == s[i..j] + [s[j]] && s[j..][1..] == s[j + 1..]
  {
  }

  datatype Outcome = Failed | Asleep | Done

  class PipeBuf {
    const data: array<Byte>
    var nread: Uint
    var nwrite: Uint
    var readopen: bool
    var writeopen: bool

    ghost var accepted: seq<Byte> // all bytes ever taken from writers, in order
    ghost var consumed: seq<Byte> // all bytes ever taken out by readers, in order

    constructor ()
      ensures Valid() && fresh(data) && Contents() == [] && accepted == [] && consumed == []
      ensures readopen && writeopen
    {
      data := new Byte[PIPESIZE](_ => 0);
      nread, nwrite, readopen, writeopen := 0, 0, true, true;
      accepted, consumed := [], [];
    }

    ghost function Contents(): (r: seq<Byte>)
      requires data.Length == PIPESIZE
      reads this`nread, this`nwrite, data
    {
      Ring(data[..], nread, Occupancy(nread, nwrite))
    }

    /** What was consumed and then what is in the ring is exactly what was accepted. */
    ghost predicate Valid()
      reads this, data
    {
      && data.Length == PIPESIZE
      && Occupancy(nread, nwrite) <= PIPESIZE
      && consumed + Contents() == accepted
    }

    method PutByte(ch: Byte)
      requires Valid() && Occupancy(nread, nwrite) < PIPESIZE
      modifies this`nwrite, this`accepted, data
      ensures Valid() && accepted == old(accepted) + [ch] && Contents() == old(Contents()) + [ch]
    {
      StoreAppends(data[..], nread, nwrite, ch);
      CounterSteps(nread, nwrite);
      ghost var before := data[..];
      data[Slot(nwrite)] := ch;
      assert data[..] == before[Slot(nwrite) := ch];
      nwrite := Inc(nwrite);
      accepted := accepted + [ch];
    }

    method GetByte() returns (ch: Byte)
      requires Valid() && Occupancy(nread, nwrite) > 0
      modifies this`nread, this`consumed
      ensures Valid() && Contents() == old(Contents())[1..]
      ensures ch == old(Contents())[0] && consumed == old(consumed) + [ch]
    {
      LoadRemoves(data[..], nread, nwrite);
      CounterSteps(nread, nwrite);
      ch := data[Slot(nread)];
      nread := Inc(nread);
      consumed := consumed + [ch];
    }

    /** pipewrite from byte i of src, of which the first `avail` can be copied in. */
    method Write(src: seq<Byte>, i: nat, avail: nat, killed: bool) returns (out: Outcome, j: nat)
      requires Valid() && i <= |src|
      modifies this`nwrite, this`accepted, data
      ensures Valid() && i <= j <= |src|
      ensures accepted == old(accepted) + src[i..j] && Contents() == old(Contents()) + src[i..j]
      ensures out.Failed? <==> i < |src| && (!readopen || killed)
      ensures out.Failed? ==> j == i
      ensures out.Asleep? ==> |Contents()| == PIPESIZE && j < |src|
      ensures out.Done? ==> j == |src| || (j >= avail && |Contents()| < PIPESIZE)
      ensures j > i ==> j <= avail
    {
      hide Occupancy, Inc, Slot;
      j := i;
      while j < |src|
        invariant i <= j <= |src| && Valid()
        invariant accepted == old(accepted) + src[i..j] && Contents() == old(Contents()) + src[i..j]
        invariant j > i ==> readopen && !killed && j <= avail
      {
        if !readopen || killed {
          return Failed, j;
        }
        CounterTests(nread, nwrite);
        if nwrite == (nread + PIPESIZE) % UINT_LIMIT {
          return Asleep, j;
        }
        if j >= avail { // copyin fails
          break;
        }
        SliceGrows(src, i, j);
        PutByte(src[j]);
        j := j + 1;
      }
      return Done, j;
    }

    /** piperead of n bytes into a buffer that accepts `room`. A byte whose copyout fails is gone. */
    method Read(n: nat, room: nat, killed: bool) returns (out: Outcome, got: seq<Byte>, ghost took: nat)
      requires Valid()
      modifies this`nread, this`consumed
      ensures Valid() && took <= old(|Contents()|)
      ensures out.Asleep? <==> old(|Contents()|) == 0 && writeopen && !killed
      ensures out.Failed? <==> old(|Contents()|) == 0 && writeopen && killed
      ensures Contents() == old(Contents())[took..]
      ensures consumed == old(consumed) + old(Contents())[..took]
      ensures got == old(Contents())[..Least(took, room)]
      ensures took == if !out.Done? then 0 else Least(Least(n, old(|Contents()|)), room + 1)
    {
      hide Occupancy, Inc, Slot;
      CounterTests(nread, nwrite);
      got, took := [], 0;
      if nread == nwrite && writeopen {
        return if killed then Failed else Asleep, got, took;
      }
      ghost var ring := Contents();
      var i := 0;
      while i < n
        invariant 0 <= i <= n && i <= |ring| && i <= room && Valid()
        invariant Contents() == ring[i..] && got == ring[..i] && took == i
        invariant consumed == old(consumed) + ring[..i]
      {
        CounterTests(nread, nwrite);
        if nread == nwrite {
          break;
        }
        var ch := GetByte();
        took := took + 1;
        SliceGrows(ring, 0, i);
        if i >= room { // copyout fails
          break;
        }
        got := got + [ch];
        i := i + 1;
      }
      return Done, got, took;
    }

    /** Close one end; the page of the pipe is freed with the second. */
    method Close(writable: bool) returns (freed: bool)
      requires Valid()
      modifies this`readopen, this`writeopen
      ensures Valid() && Contents() == old(Contents())
      ensures readopen == (old(readopen) && writable) && writeopen == (old(writeopen) && !writable)
      ensures freed <==> !old(if writable then readopen else writeopen)
    {
      if writable {
        writeopen := false;
      } else {
        readopen := false;
      }
      return !readopen && !writeopen;
    }
  }

  function Least(a: nat, b: nat): (r: nat) {
    if a < b then a else b
  }
}
