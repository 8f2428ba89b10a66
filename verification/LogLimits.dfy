/** A full log, by calls from a blank disk: three operations, each within its budget, log as many blocks
    as there are buffers, and the commit that follows finds none. */
module LogLimits {
  import opened Common
  import opened Blocks
  import opened RedoLog
  import opened LogDisk
  import opened Log
  import BufferCache
  import LogRuns

  type Buf = BufferCache.Buf

  /** The i-th block outside the log. */
  function HomeBlock(g: Geometry, i: nat): nat { if i < g.start then i else i + g.nlog }

  lemma HomeBlockIs(g: Geometry, i: nat, j: nat)
    requires g.Valid() && i < g.size - g.nlog
    ensures g.IsHome(HomeBlock(g, i)) && (HomeBlock(g, i) == HomeBlock(g, j) ==> i == j)
  {
  }

  /** Between operations' calls: nobody holds a buffer, and only listed blocks' buffers are referenced. */
  predicate RestingAt(bufs: seq<Buf>, dev: nat, lh: seq<nat>, i: nat) {
    i < |bufs| ==> !bufs[i].locked && (bufs[i].refcnt > 0 ==> bufs[i].dev == dev && bufs[i].blockno in lh)
  }

  ghost predicate Resting(bufs: seq<Buf>, dev: nat, lh: seq<nat>) {
    forall i: nat {:trigger RestingAt(bufs, dev, lh, i)} :: RestingAt(bufs, dev, lh, i)
  }

  function Listed(lh: seq<nat>): (s: set<nat>)
    ensures |s| <= |lh| && forall b :: b in s <==> b in lh
  {
    if lh == [] then {} else Listed(lh[..|lh| - 1]) + {lh[|lh| - 1]}
  }

  lemma {:induction false} ListedSize(s: seq<nat>)
    requires Distinct(s)
    ensures |Listed(s)| == |s|
  {
    if s != [] {
      var n := |s| - 1;
      ListedSize(s[..n]);
      assert s[n] !in s[..n];
    }
  }

  /** Fewer listed blocks than buffers leave a buffer to spare. */
  lemma SpareLeft(bufs: seq<Buf>, dev: nat, lh: seq<nat>)
    requires BufferCache.Unique(bufs) && dev != 0 && Resting(bufs, dev, lh) && |lh| < |bufs|
    ensures !BufferCache.NoneSpare(bufs)
  {
    if BufferCache.NoneSpare(bufs) {
      var held := seq(|bufs|, i requires 0 <= i < |bufs| => bufs[i].blockno);
      forall i: nat, j: nat | i < j < |held|
        ensures held[i] != held[j]
      {
        assert RestingAt(bufs, dev, lh, i) && RestingAt(bufs, dev, lh, j) && BufferCache.Differ(bufs, i, j);
      }
      forall b | b in held
        ensures b in lh
      {
        var i: nat :| i < |held| && held[i] == b;
        assert RestingAt(bufs, dev, lh, i);
      }
      ListedSize(held);
      SubsetSize(Listed(held), Listed(lh));
    }
  }

  /** What operation j has logged when n blocks are. */
  function Share(n: nat, j: nat): nat {
    if n <= j * MAXOPBLOCKS then 0 else if n < (j + 1) * MAXOPBLOCKS then n - j * MAXOPBLOCKS else MAXOPBLOCKS
  }

  ghost predicate Shares(s: Sys, n: nat) {
    |s.ops| == 3 && forall j :: 0 <= j < 3 ==> s.ops[j].added == Share(n, j)
  }

  /** The last step of a run. */
  lemma LastStep(run: seq<Sys>, steps: seq<Step>, first: Image<Block>, s: Sys, step: Step, s': Sys)
    requires LogRuns.IsRun(run + [s'], steps + [step], first) && |run| > 0 && s == run[|run| - 1]
    ensures LogRuns.Next(s, s', step)
  {
    assert LogRuns.StepAt(run + [s'], steps + [step], |steps|);
  }

  lemma MoreThrift(run: seq<Sys>, s': Sys)
    requires LogRuns.ThriftyRun(run) && LogRuns.Thrifty(s')
    ensures LogRuns.ThriftyRun(run + [s'])
  {
  }

  /** The third of the blocks logged by one operation each, n in all so far. */
  ghost predicate Loading(ls: LogState, n: nat)
    reads ls, ls.bc
  {
    && ls.Rep() && ls.Loggable() && ls.Pinned() && ls.Traced() && ls.Im().head == [] && !ls.committing
    && ls.outstanding == 3 && Resting(ls.bc.bufs, ls.dev, ls.lh)
    && |ls.lh| == n && (forall i :: 0 <= i < n ==> ls.lh[i] == HomeBlock(ls.g, i))
    && LogRuns.ThriftyRun(ls.run) && Shares(ls.run[|ls.run| - 1], n)
  }

  /** The same with k of the three operations begun and nothing logged. */
  ghost predicate Begun(ls: LogState, k: nat)
    reads ls, ls.bc
  {
    && ls.Rep() && ls.Loggable() && ls.Pinned() && ls.Traced() && ls.Im().head == [] && !ls.committing
    && ls.outstanding == k && Resting(ls.bc.bufs, ls.dev, ls.lh) && ls.lh == []
    && LogRuns.ThriftyRun(ls.run) && forall o :: o in ls.run[|ls.run| - 1].ops ==> o.added == 0
  }

  /** A new log on a blank disk. */
  method NewLog(g: Geometry, dev: nat, disk: seq<Block>) returns (ls: LogState)
    requires g.Valid() && |disk| == g.size && GetWord(disk[g.start], 0) == 0 && dev != 0
    ensures fresh(ls) && fresh(ls.bc) && ls.g == g && ls.dev == dev && Begun(ls, 0)
  {
    BlankDisk(g, disk);
    var bc := new BufferCache.Cache(disk);
    NewTidy(g, dev, bc.bufs, disk);
    ghost var im := ImOf(g, disk);
    ghost var s: Sys := LogRuns.Sys(im, im, [], map[], [], 0, 0, [], LogRuns.Booting(0), [], {});
    ls := new LogState(g, dev, bc, [s], [], im);
    bc.Facts();
    IdleResting(bc.bufs, dev, bc.pins, bc.waiting);
  }

  lemma IdleResting(bufs: seq<Buf>, dev: nat, pins: seq<nat>, waiting: seq<nat>)
    requires AllIdle(bufs)
    ensures BufferCache.Counted(bufs, pins, waiting) ==> Resting(bufs, dev, [])
  {
    if BufferCache.Counted(bufs, pins, waiting) {
      forall i: nat
        ensures RestingAt(bufs, dev, [], i)
      {
        assert BufferCache.CountAt(bufs, pins, waiting, i);
      }
    }
  }

  /** One more operation begins. */
  method BeginOne(ls: LogState, k: nat)
    requires Begun(ls, k) && k < 3
    modifies ls
    ensures Begun(ls, k + 1)
  {
    ghost var run, steps, s := ls.run, ls.steps, ls.run[|ls.run| - 1];
    var admitted := ls.BeginOp();
    ghost var s' := ls.run[|ls.run| - 1];
    LastStep(run, steps, ls.first, s, LogRuns.BeginOp, s');
    MoreThrift(run, s');
  }

  /** All three operations begun. */
  lemma Ready(ls: LogState)
    requires Begun(ls, 3)
    ensures Loading(ls, 0)
  {
    var ops := ls.run[|ls.run| - 1].ops;
    assert forall j :: 0 <= j < 3 ==> ops[j] in ops;
  }

  /** One more block is read, changed, logged and released by the operation whose turn it is. */
  method LogOne(ls: LogState, n: nat, data: Block)
    requires Loading(ls, n) && n < LOGSIZE < ls.g.nlog && LOGSIZE <= ls.g.size - ls.g.nlog
    modifies ls, ls.bc
    ensures Loading(ls, n + 1)
  {
    var b := HomeBlock(ls.g, n);
    NewBlock(ls.g, ls.lh, n);
    ghost var run, steps, s := ls.run, ls.steps, ls.run[|ls.run| - 1];
    LogBlock(ls, b, n / MAXOPBLOCKS, data);
    ghost var s' := ls.run[|ls.run| - 1];
    LastStep(run, steps, ls.first, s, LogRuns.LogWrite(n / MAXOPBLOCKS, b, data), s');
    NextShare(s, s', n, b, data);
    MoreThrift(run, s');
  }

  /** bread, a change, log_write and brelse of a block that is not listed. */
  method LogBlock(ls: LogState, b: nat, which: nat, data: Block)
    requires ls.Rep() && ls.Loggable() && ls.Pinned() && ls.Traced() && ls.g.IsHome(b) && b !in ls.lh
    requires Resting(ls.bc.bufs, ls.dev, ls.lh) && which < ls.outstanding && |ls.lh| < LOGSIZE < ls.g.nlog
    modifies ls, ls.bc
    ensures ls.Rep() && ls.Loggable() && ls.Pinned() && ls.Traced() && Resting(ls.bc.bufs, ls.dev, ls.lh)
    ensures ls.lh == old(ls.lh) + [b] && ls.outstanding == old(ls.outstanding) && ls.committing == old(ls.committing)
    ensures ls.first == old(ls.first) && ls.bc.disk == old(ls.bc.disk) && ls.run == old(ls.run) + [ls.run[|ls.run| - 1]]
    ensures ls.steps == old(ls.steps) + [LogRuns.LogWrite(which, b, data)]
  {
    ghost var bufs, lh := ls.bc.bufs, ls.lh;
    var k := Hold(ls, b, which, data);
    ls.Release(k);
    NowResting(bufs, ls.bc.bufs, ls.dev, lh, ls.lh, k);
  }

  /** The same up to brelse. */
  method Hold(ls: LogState, b: nat, which: nat, data: Block) returns (k: nat)
    requires ls.Rep() && ls.Loggable() && ls.Pinned() && ls.Traced() && ls.g.IsHome(b) && b !in ls.lh
    requires Resting(ls.bc.bufs, ls.dev, ls.lh) && which < ls.outstanding && |ls.lh| < LOGSIZE < ls.g.nlog
    modifies ls, ls.bc
    ensures ls.Rep() && ls.Loggable() && ls.Pinned() && ls.Traced() && BufferCache.IsFor(ls.bc.bufs, ls.dev, b, k)
    ensures ls.bc.bufs == old(ls.bc.bufs)[k := ls.bc.bufs[k]] && ls.bc.bufs[k].locked && ls.bc.bufs[k].data == data
    ensures b in ls.cache && ls.cache[b] == data
    ensures ls.lh == old(ls.lh) + [b] && ls.outstanding == old(ls.outstanding) && ls.committing == old(ls.committing)
    ensures ls.first == old(ls.first) && ls.bc.disk == old(ls.bc.disk) && ls.run == old(ls.run) + [ls.run[|ls.run| - 1]]
    ensures ls.steps == old(ls.steps) + [LogRuns.LogWrite(which, b, data)]
  {
    k := Fetch(ls, b);
    ls.Change(k, data);
    var panicked := ls.LogWrite(k, which);
  }

  /** bread of a block while nobody holds a buffer and one is to spare. */
  method Fetch(ls: LogState, b: nat) returns (k: nat)
    requires ls.Rep() && ls.Loggable() && ls.Pinned() && ls.Traced() && ls.g.IsHome(b)
    requires Resting(ls.bc.bufs, ls.dev, ls.lh) && |ls.lh| < NBUF
    modifies ls.bc
    ensures ls.Rep() && ls.Loggable() && ls.Pinned() && ls.Traced() && BufferCache.IsFor(ls.bc.bufs, ls.dev, b, k)
    ensures ls.bc.bufs == old(ls.bc.bufs)[k := ls.bc.bufs[k]] && ls.bc.bufs[k].locked && ls.bc.bufs[k].valid
    ensures ls.bc.disk == old(ls.bc.disk)
  {
    ls.bc.Facts();
    SpareLeft(ls.bc.bufs, ls.dev, ls.lh);
    ghost var bufs := ls.bc.bufs;
    assert BufferCache.Unheld(bufs, ls.dev, b) by {
      forall i: nat | i < |bufs|
        ensures !bufs[i].locked
      {
        assert RestingAt(bufs, ls.dev, ls.lh, i);
      }
    }
    var asleep;
    k, asleep := ls.ReadBlock(b);
  }

  lemma NewBlock(g: Geometry, lh: seq<nat>, n: nat)
    requires g.Valid() && n < g.size - g.nlog && |lh| == n && forall i :: 0 <= i < n ==> lh[i] == HomeBlock(g, i)
    ensures g.IsHome(HomeBlock(g, n)) && HomeBlock(g, n) !in lh
  {
    forall i: nat | i < n
      ensures lh[i] != HomeBlock(g, n)
    {
      HomeBlockIs(g, n, i);
    }
    HomeBlockIs(g, n, n);
  }

  lemma NextShare(s: Sys, s': Sys, n: nat, b: nat, data: Block)
    requires Shares(s, n) && n < LOGSIZE && b !in s.lh
    requires LogRuns.Next(s, s', LogRuns.LogWrite(n / MAXOPBLOCKS, b, data))
    ensures Shares(s', n + 1) && LogRuns.Thrifty(s')
  {
  }

  lemma NowResting(bufs: seq<Buf>, bufs': seq<Buf>, dev: nat, lh: seq<nat>, lh': seq<nat>, k: nat)
    requires Resting(bufs, dev, lh) && k < |bufs| == |bufs'| && bufs' == bufs[k := bufs'[k]] && lh <= lh'
    requires !bufs'[k].locked && bufs'[k].dev == dev && bufs'[k].blockno in lh'
    ensures Resting(bufs', dev, lh')
  {
    forall i: nat
      ensures RestingAt(bufs', dev, lh', i)
    {
      assert RestingAt(bufs, dev, lh, i);
    }
  }

  /** A log of LOGSIZE slots on any blank disk with as many other blocks: three operations, none of which
      logs more than MAXOPBLOCKS blocks, fill it, and the last of them to end will panic for want of a buffer. */
  method FillLog(g: Geometry, dev: nat, disk: seq<Block>, data: Block) returns (ls: LogState)
    requires g.Valid() && |disk| == g.size && GetWord(disk[g.start], 0) == 0 && dev != 0
    requires LOGSIZE < g.nlog && LOGSIZE <= g.size - g.nlog
    ensures fresh(ls) && fresh(ls.bc) && ls.g == g && ls.dev == dev && !ls.committing && ls.outstanding == 1
    ensures ls.Rep() && ls.Loggable() && ls.Pinned() && ls.Traced() && ls.Im().head == []
    ensures LogRuns.ThriftyRun(ls.run) && |ls.lh| == LOGSIZE && Quiet(ls.bc.bufs, dev, ls.lh, 0)
    ensures NoBuffers(g, ls.bc.bufs, dev, |ls.lh|)
  {
    ls := LoadAll(g, dev, disk, data);
    EndTwo(ls);
  }

  /** Two of the three operations end. */
  method EndTwo(ls: LogState)
    requires Loading(ls, LOGSIZE)
    modifies ls, ls.bc
    ensures !ls.committing && ls.outstanding == 1
    ensures ls.Rep() && ls.Loggable() && ls.Pinned() && ls.Traced() && ls.Im().head == []
    ensures LogRuns.ThriftyRun(ls.run) && |ls.lh| == LOGSIZE && Quiet(ls.bc.bufs, ls.dev, ls.lh, 0)
    ensures NoBuffers(ls.g, ls.bc.bufs, ls.dev, |ls.lh|)
  {
    EndEarly(ls);
    EndEarly(ls);
    ls.FullLog();
  }

  /** Thirty blocks, ten by each of three operations. */
  method LoadAll(g: Geometry, dev: nat, disk: seq<Block>, data: Block) returns (ls: LogState)
    requires g.Valid() && |disk| == g.size && GetWord(disk[g.start], 0) == 0 && dev != 0
    requires LOGSIZE < g.nlog && LOGSIZE <= g.size - g.nlog
    ensures fresh(ls) && fresh(ls.bc) && ls.g == g && ls.dev == dev && Loading(ls, LOGSIZE)
  {
    ls := NewLog(g, dev, disk);
    BeginOne(ls, 0);
    BeginOne(ls, 1);
    BeginOne(ls, 2);
    Ready(ls);
    LogAll(ls, data);
  }

  method LogAll(ls: LogState, data: Block)
    requires Loading(ls, 0) && LOGSIZE < ls.g.nlog && LOGSIZE <= ls.g.size - ls.g.nlog
    modifies ls, ls.bc
    ensures Loading(ls, LOGSIZE)
  {
    var n := 0;
    while n < LOGSIZE
      invariant n <= LOGSIZE && Loading(ls, n)
    {
      LogOne(ls, n, data);
      n := n + 1;
    }
  }

  /** An operation ends while others are open. */
  method EndEarly(ls: LogState)
    requires ls.Rep() && ls.Loggable() && ls.Pinned() && ls.Traced() && ls.Im().head == [] && !ls.committing
    requires ls.outstanding >= 2 && Resting(ls.bc.bufs, ls.dev, ls.lh) && LogRuns.ThriftyRun(ls.run)
    modifies ls, ls.bc
    ensures ls.Rep() && ls.Loggable() && ls.Pinned() && ls.Traced() && ls.Im().head == [] && !ls.committing
    ensures ls.outstanding == old(ls.outstanding) - 1 && ls.lh == old(ls.lh) && LogRuns.ThriftyRun(ls.run)
    ensures Resting(ls.bc.bufs, ls.dev, ls.lh) && Quiet(ls.bc.bufs, ls.dev, ls.lh, 0)
  {
    ghost var run, steps, s := ls.run, ls.steps, ls.run[|ls.run| - 1];
    var panicked := ls.EndOp(0);
    ghost var s' := ls.run[|ls.run| - 1];
    LastStep(run, steps, ls.first, s, LogRuns.EndOp(0), s');
    assert LogRuns.Thrifty(s);
    MoreThrift(run, s');
    RestingQuiet(ls.bc.bufs, ls.dev, ls.lh);
  }

  lemma RestingQuiet(bufs: seq<Buf>, dev: nat, lh: seq<nat>)
    requires Resting(bufs, dev, lh)
    ensures Quiet(bufs, dev, lh, 0)
  {
    forall j: nat
      ensures QuietAt(bufs, dev, lh, j)
    {
      if j < |lh| {
        forall i: nat | i < |bufs| && BufferCache.IsFor(bufs, dev, lh[j], i)
          ensures !bufs[i].locked
        {
          assert RestingAt(bufs, dev, lh, i);
        }
      }
    }
  }
}
