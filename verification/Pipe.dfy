/** Pipes: a ring buffer with free-running 32-bit counters. Each method is one stretch of
    pipewrite or piperead between taking the lock and sleeping or returning, so any
    interleaving of writers and readers is a sequence of calls. */
module Pipe {
  import opened Blocks

  const PIPESIZE: nat := 512

  /** Unbounded counts r <= w at most PIPESIZE apart, as the 32-bit counters show them. */
  lemma CountersTell(r: nat, w: nat)
    requires r <= w <= r + PIPESIZE
    ensures r % WORD_LIMIT == w % WORD_LIMIT <==> r == w
    ensures w % WORD_LIMIT == (r % WORD_LIMIT + PIPESIZE) % WORD_LIMIT <==> w == r + PIPESIZE
  {
  }

  /** A wrapped counter has the ring position of the unbounded one. */
  lemma CounterPosition(n: nat)
    ensures n % WORD_LIMIT % PIPESIZE == n % PIPESIZE
  {
  }

  lemma CounterNext(n: nat, c: nat, c': nat)
    requires c == n % WORD_LIMIT && c' == (c + 1) % WORD_LIMIT
    ensures c' == (n + 1) % WORD_LIMIT
  {
  }

  lemma Apart(j: nat, k: nat)
    requires j < k < j + PIPESIZE
    ensures j % PIPESIZE != k % PIPESIZE
  {
  }

  /** Byte k is in its place in the ring while it is in the pipe. */
  predicate InPlace(ring: seq<Byte>, bytes: seq<Byte>, taken: nat, k: nat) {
    |ring| == PIPESIZE && (taken <= k < |bytes| ==> ring[k % PIPESIZE] == bytes[k])
  }

  ghost predicate InRing(ring: seq<Byte>, bytes: seq<Byte>, taken: nat) {
    forall k: nat {:trigger InPlace(ring, bytes, taken, k)} :: InPlace(ring, bytes, taken, k)
  }

  /** One more byte in a ring that is not full. */
  lemma PushRing(ring: seq<Byte>, bytes: seq<Byte>, taken: nat, nwrite: nat, ch: Byte, ring': seq<Byte>,
                 bytes': seq<Byte>)
    requires InRing(ring, bytes, taken) && |ring| == PIPESIZE && |bytes| < taken + PIPESIZE
    requires nwrite == |bytes| % WORD_LIMIT && ring' == ring[nwrite % PIPESIZE := ch] && bytes' == bytes + [ch]
    ensures InRing(ring', bytes', taken)
  {
    CounterPosition(|bytes|);
    forall k: nat
      ensures InPlace(ring', bytes', taken, k)
    {
      assert InPlace(ring, bytes, taken, k);
      if taken <= k < |bytes| {
        Apart(k, |bytes|);
      }
    }
  }

  lemma PopRing(ring: seq<Byte>, bytes: seq<Byte>, taken: nat, nread: nat)
    requires InRing(ring, bytes, taken) && |ring| == PIPESIZE && taken < |bytes| && nread == taken % WORD_LIMIT
    ensures ring[nread % PIPESIZE] == bytes[taken] && InRing(ring, bytes, taken + 1)
  {
    CounterPosition(taken);
    assert InPlace(ring, bytes, taken, taken);
    var t := taken + 1;
    forall k: nat
      ensures InPlace(ring, bytes, t, k)
    {
      assert InPlace(ring, bytes, taken, k);
    }
  }

  /** Why a writer's stretch ended, and a reader's. */
  datatype Stop = Finished | Full | Fault | Broken
  datatype Served = Given | Waits | Killed

  class Pipe {
    const data: array<Byte>
    var nread: nat
    var nwrite: nat
    var readopen: bool
    var writeopen: bool
    var readers: nat                // asleep on nread
    var writers: nat                // asleep on nwrite
    ghost var accepted: seq<Byte>   // every byte any writer put in
    ghost var taken: nat            // how many bytes readers took out
    ghost var delivered: seq<Byte>  // the bytes handed to readers
    ghost var lost: bool            // a byte was taken out whose copy to the reader failed

    ghost predicate Valid()
      reads this, data
    {
      && data.Length == PIPESIZE
      && taken <= |accepted| <= taken + PIPESIZE
      && nread == taken % WORD_LIMIT && nwrite == |accepted| % WORD_LIMIT
      && InRing(data[..], accepted, taken)
      && (!lost ==> delivered == accepted[..taken])
    }

    ghost predicate Empty()
      reads this
    {
      taken == |accepted|
    }

    ghost predicate IsFull()
      reads this
    {
      |accepted| == taken + PIPESIZE
    }

    /** Nobody sleeps who has something to do: readers only while the pipe is empty and may be
        written, writers only while it is full and may be read. */
    ghost predicate Awake()
      reads this
    {
      (readers > 0 ==> Empty() && writeopen) && (writers > 0 ==> IsFull() && readopen)
    }

    constructor ()
      ensures Valid() && Awake() && accepted == [] && delivered == [] && readopen && writeopen && !lost && fresh(data)
    {
      data := new Byte[PIPESIZE](_ => 0);
      nread, nwrite, readopen, writeopen, readers, writers := 0, 0, true, true, 0, 0;
      accepted, taken, delivered, lost := [], 0, [], false;
    }

    /** Put one byte into a pipe that is not full. */
    method Push(ch: Byte)
      requires Valid() && |accepted| < taken + PIPESIZE
      modifies this`nwrite, this`accepted, data
      ensures Valid() && accepted == old(accepted) + [ch]
    {
      data[nwrite % PIPESIZE] := ch;
      nwrite := (nwrite + 1) % WORD_LIMIT;
      accepted := accepted + [ch];
      CounterNext(|old(accepted)|, old(nwrite), nwrite);
      PushRing(old(data[..]), old(accepted), taken, old(nwrite), ch, data[..], accepted);
    }

    /** A writer with bytes i to n to write, of which `src` holds those it can read, is killed with some
        of them in the pipe: it comes to byte `killedAt` past the first with an open reader, everything
        before that readable and fitting an empty pipe. */
    ghost predicate CutDown(src: seq<Byte>, i: nat, n: nat, killedAt: nat)
      reads this
    {
      readopen && i < killedAt < n && killedAt <= |src| && killedAt - i <= PIPESIZE
    }

    /** pipewrite from i on, until it is done, must sleep, or fails; `src` is the readable start of the
        source, and the writer is killed by the time it comes to byte `killedAt`. The readers are woken
        on every way out but one: a writer cut down with bytes in the pipe leaves them asleep. */
    method Write(src: seq<Byte>, i: nat, n: nat, killedAt: nat) returns (j: nat, why: Stop)
      requires Valid() && i <= n && i <= |src|
      modifies this`nwrite, this`accepted, this`readers, this`writers, data
      ensures Valid() && i <= j <= n && j <= |src| && accepted == old(accepted) + src[i..j]
      ensures why == Finished <==> j == n
      ensures why == Broken <==> j < n && (!readopen || killedAt <= j)
      ensures why == Full <==> j < n && readopen && j < killedAt && IsFull()
      ensures why == Fault ==> j == |src| < n
      ensures old(Awake()) ==> (Awake() <==> !(old(readers) > 0 && old(CutDown(src, i, n, killedAt))))
      ensures readers == if why == Broken then old(readers) else 0
      ensures writers == old(writers) + if why == Full then 1 else 0
    {
      j, why := i, Finished;
      while j < n
        invariant Valid() && i <= j <= n && j <= |src| && accepted == old(accepted) + src[i..j]
        invariant !readopen ==> j == i
        invariant readers == old(readers) && writers == old(writers) && (i < j ==> j <= killedAt)
        invariant old(Awake()) && writers > 0 ==> j == i
      {
        if !readopen || killedAt <= j {
          return j, Broken;
        }
        CountersTell(taken, |accepted|);
        if nwrite == (nread + PIPESIZE) % WORD_LIMIT {
          readers := 0;
          writers := writers + 1;
          return j, Full;
        }
        if j >= |src| {
          why := Fault;
          break;
        }
        Push(src[j]);
        j := j + 1;
      }
      readers := 0;
    }

    /** Take one byte out; `copied` says whether it reaches the reader. */
    method Pop(copied: bool) returns (ch: Byte)
      requires Valid() && taken < |accepted|
      modifies this`nread, this`taken, this`delivered, this`lost
      ensures Valid() && taken == old(taken) + 1 && ch == accepted[old(taken)]
      ensures copied ==> delivered == old(delivered) + [ch] && lost == old(lost)
      ensures !copied ==> delivered == old(delivered) && lost
    {
      PopRing(data[..], accepted, taken, nread);
      ch := data[nread % PIPESIZE];
      nread := (nread + 1) % WORD_LIMIT;
      CounterNext(taken, old(nread), nread);
      taken := taken + 1;
      if copied {
        delivered := delivered + [ch];
      } else {
        lost := true;
      }
    }

    /** piperead: sleep while the pipe is empty and may be written, or give up when killed; otherwise
        take up to n bytes into a destination that can hold `room` of them, and wake the writers. */
    method Read(n: nat, room: nat, killed: bool) returns (why: Served, out: seq<Byte>)
      requires Valid()
      modifies this`nread, this`taken, this`delivered, this`lost, this`readers, this`writers
      ensures Valid() && (old(Awake()) ==> Awake()) && delivered == old(delivered) + out
      ensures why == Waits <==> old(Empty()) && writeopen && !killed
      ensures why == Killed <==> old(Empty()) && writeopen && killed
      ensures why != Given ==> out == [] && taken == old(taken) && lost == old(lost) && writers == old(writers)
      ensures readers == old(readers) + if why == Waits then 1 else 0
      ensures why == Given ==>
        |out| == Least(n, room, |accepted| - old(taken)) && out == accepted[old(taken)..old(taken) + |out|]
      ensures why == Given ==>
        (lost <==> old(lost) || room < Least(n, room + 1, |accepted| - old(taken))) && writers == 0
    {
      out := [];
      CountersTell(taken, |accepted|);
      if nread == nwrite && writeopen {
        if killed {
          return Killed, out;
        }
        readers := readers + 1;
        return Waits, out;
      }
      out := Drain(n, room);
      writers := 0;
      why := Given;
    }

    /** The copying loop of piperead. */
    method Drain(n: nat, room: nat) returns (out: seq<Byte>)
      requires Valid()
      modifies this`nread, this`taken, this`delivered, this`lost
      ensures Valid() && delivered == old(delivered) + out
      ensures |out| == Least(n, room, |accepted| - old(taken)) && out == accepted[old(taken)..old(taken) + |out|]
      ensures lost <==> old(lost) || room < Least(n, room + 1, |accepted| - old(taken))
    {
      out := [];
      var i := 0;
      while i < n
        invariant i == |out| <= n && i <= room && taken == old(taken) + i && Valid() && lost == old(lost)
        invariant out == accepted[old(taken)..taken] && delivered == old(delivered) + out
      {
        CountersTell(taken, |accepted|);
        if nread == nwrite {
          break;
        }
        var ch := Pop(i < room);
        if i >= room {
          break;
        }
        out := out + [ch];
        i := i + 1;
      }
    }

    /** pipeclose: one end closes, those asleep at the other are woken, and the pipe is freed once both
        ends are closed. What is in it stays for the reader. */
    method Close(writable: bool) returns (freed: bool)
      requires Valid()
      modifies this`readopen, this`writeopen, this`readers, this`writers
      ensures Valid() && (old(Awake()) ==> Awake())
      ensures writeopen == (old(writeopen) && !writable) && readopen == (old(readopen) && writable)
      ensures readers == (if writable then 0 else old(readers)) && writers == (if writable then old(writers) else 0)
      ensures freed <==> !readopen && !writeopen
      ensures old(Awake()) && freed ==> readers == 0 && writers == 0
    {
      if writable {
        writeopen := false;
        readers := 0;
      } else {
        readopen := false;
        writers := 0;
      }
      freed := !readopen && !writeopen;
    }
  }

  /** A reader sleeps on an empty pipe, and a writer is killed after the first of its two bytes: the reader
      sleeps on with a byte to read, until the writing end is closed or another call wakes it. */
  method SleptThrough() returns (p: Pipe)
    ensures fresh(p) && p.Valid() && p.readers > 0 && p.accepted == [7] && !p.Empty() && p.readopen && p.writeopen
    ensures !p.Awake()
  {
    p := new Pipe();
    var served, out := p.Read(1, 1, false);
    var j, why := p.Write([7, 7], 0, 2, 1);
  }

  function Least(a: nat, b: nat, c: nat): nat { if a <= b && a <= c then a else if b <= c then b else c }
}
