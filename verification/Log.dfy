/** The logging code over the buffer cache: each method is proved to issue exactly the writes the
    redo log's runs are made of, and every sequence of calls to be one of those runs. */
module Log {
  import opened Common
  import opened Blocks
  import opened RedoLog
  import opened LogDisk
  import BufferCache
  import LogRuns

  type Sys = LogRuns.Sys<Block>
  type Step = LogRuns.Step<Block>

  class LogState {
    const g: Geometry
    const dev: nat
    const bc: BufferCache.Cache       // the disk is reached through it
    var lh: seq<nat>                  // log.lh.block[0..log.lh.n]
    var outstanding: int
    var committing: bool
    ghost var cache: map<nat, Block>  // what was logged for each listed block
    ghost var place: map<nat, nat>    // the buffer it sits in
    ghost var trace: seq<ImageWrite<Block>>   // every bwrite so far
    ghost var run: seq<Sys>           // the run of the logging system so far
    ghost var steps: seq<Step>
    ghost var first: Image<Block>     // the disk it began with

    ghost predicate Rep()
      reads this, bc
    {
      && dev != 0 && bc.Valid() && Fitted(g, bc.disk) && Tidy(g, dev, bc.bufs, bc.disk)
    }

    ghost function Im(): Image<Block>
      requires Fitted(g, bc.disk)
      reads this, bc
    {
      ImOf(g, bc.disk)
    }

    /** The entries of the in-memory header are home blocks, one slot each. */
    ghost predicate Listable()
      reads this
    {
      |lh| <= LOGSIZE && |lh| <= g.nlog - 1 && Distinct(lh) && forall b :: b in lh ==> g.IsHome(b)
    }

    /** The in-memory header may be committed. */
    ghost predicate Loggable()
      reads this
    {
      Listable() && cache.Keys == set b | b in lh
    }

    /** Every listed block sits in a pinned buffer with what was logged for it. */
    ghost predicate Pinned()
      reads this, bc
    {
      Logged(bc.bufs, bc.pins, dev, cache, place, lh, 0)
    }

    /** The concrete state is the last state of the run. */
    ghost predicate AtRest(s: Sys)
      requires Fitted(g, bc.disk)
      reads this, bc
    {
      s.phase.Running? && s.im == Im() && s.lh == lh && s.cache == cache && |s.ops| == outstanding
    }

    /** The calls so far, with the crashes and recoveries before them, are a run of the logging system. */
    ghost predicate Traced()
      reads this, bc
    {
      Fitted(g, bc.disk) && LogRuns.IsRun(run, steps, first) && AtRest(run[|run| - 1])
    }

    /** initlog on a disk a run may have left behind when the machine stopped: recovery completes the run. */
    constructor (g: Geometry, dev: nat, bc: BufferCache.Cache, ghost run0: seq<Sys>, ghost steps0: seq<Step>,
                 ghost first: Image<Block>)
      requires dev != 0 && bc.Valid() && AllIdle(bc.bufs) && Fitted(g, bc.disk) && Tidy(g, dev, bc.bufs, bc.disk)
      requires LogRuns.IsRun(run0, steps0, first) && run0[|run0| - 1].phase == LogRuns.Booting(0)
      requires run0[|run0| - 1].im == ImOf(g, bc.disk)
      modifies bc
      ensures this.g == g && this.dev == dev && this.bc == bc && this.first == first
      ensures Rep() && Loggable() && Pinned() && Im().head == [] && lh == [] && outstanding == 0 && !committing
      ensures AllIdle(bc.bufs) && bc.pins == old(bc.pins)
      ensures Traced() && run0 <= run && (LogRuns.ThriftyRun(run0) ==> LogRuns.ThriftyRun(run))
    {
      this.g, this.dev, this.bc := g, dev, bc;
      lh, outstanding, committing := [], 0, false;
      cache, place, trace := map[], map[], [];
      run, steps, this.first := run0, steps0, first;
      new;
      ghost var run', steps' := LogRuns.BootWhole(run, steps, first, run[|run| - 1]);
      RecoverFromLog();
      run, steps := run', steps';
    }

    /** A log block's buffer, locked, with what the disk has for it. */
    method FetchLog(n: nat) returns (k: nat)
      requires Rep() && g.InLog(n)
      modifies bc`bufs, bc`waiting, bc`panicked
      ensures bc.panicked <==> Starved(old(bc.bufs), dev, n)
      ensures !bc.panicked ==>
        bc.Valid() && BufferCache.CleanIdle(bc.bufs, bc.disk) && k < NBUF && bc.waiting == old(bc.waiting)
      ensures !bc.panicked ==>
        bc.bufs == old(bc.bufs)[k := BufferCache.Buf(true, dev, n, old(bc.bufs)[k].refcnt + 1, true, bc.disk[n])]
      ensures !bc.panicked ==> Visits(old(bc.bufs), dev, n, k) && BufferCache.Only(bc.bufs, dev)
    {
      bc.Facts();
      TidyReads(g, dev, bc.bufs, bc.disk, n);
      var asleep;
      k, asleep := bc.Bread(dev, n);
      if !bc.panicked {
        assert BufferCache.IsFor(bc.bufs, dev, n, k);
        assert bc.bufs[k] == BufferCache.Buf(true, dev, n, old(bc.bufs)[k].refcnt + 1, true, bc.disk[n]);
      }
    }

    /** bread of a block whose valid buffer k nobody holds. */
    method FetchCached(b: nat, ghost k: nat) returns (i: nat)
      requires dev != 0 && bc.Valid() && BufferCache.CleanIdle(bc.bufs, bc.disk) && BufferCache.Only(bc.bufs, dev)
      requires BufferCache.IsFor(bc.bufs, dev, b, k) && bc.bufs[k].valid && !bc.bufs[k].locked
      modifies bc`bufs, bc`waiting, bc`panicked
      ensures i == k && bc.Valid() && BufferCache.CleanIdle(bc.bufs, bc.disk) && BufferCache.Only(bc.bufs, dev)
      ensures bc.bufs == old(bc.bufs)[k := old(bc.bufs)[k].(refcnt := old(bc.bufs)[k].refcnt + 1, locked := true)]
      ensures bc.waiting == old(bc.waiting)
    {
      bc.Facts();
      ghost var bufs := bc.bufs;
      BufferCache.LatestIs(bufs, bc.disk, dev, b, k);
      assert BufferCache.Unheld(bufs, dev, b) by {
        forall j: nat | j < |bufs| && BufferCache.IsFor(bufs, dev, b, j)
          ensures !bufs[j].locked
        {
          assert BufferCache.Differ(bufs, j, k);
        }
      }
      var asleep;
      i, asleep := bc.Bread(dev, b);
      assert BufferCache.Differ(bufs, i, k) && BufferCache.IsFor(bufs, dev, b, k);
    }

    /** Overwrite a held buffer and write it to disk. */
    method PutBlock(k: nat, data: Block)
      requires dev != 0 && bc.Valid() && BufferCache.CleanIdle(bc.bufs, bc.disk) && BufferCache.Only(bc.bufs, dev)
      requires
        && k < NBUF && bc.bufs[k].locked && bc.bufs[k].valid && bc.bufs[k].dev == dev && bc.bufs[k].blockno < |bc.disk|
      modifies bc`bufs, bc`disk, bc`panicked
      ensures bc.Valid() && BufferCache.CleanIdle(bc.bufs, bc.disk) && BufferCache.Only(bc.bufs, dev)
      ensures bc.bufs == old(bc.bufs)[k := old(bc.bufs)[k].(data := data)]
      ensures bc.disk == old(bc.disk)[old(bc.bufs)[k].blockno := data]
    {
      ghost var bufs := bc.bufs;
      bc.Store(k, data);
      BufferCache.OneChange(bufs, bc.disk, k, bc.bufs[k], bc.bufs);
      bc.Bwrite(k);
    }

    /** to = bread(slot), from = bread(block), copy, bwrite(to), and both given back. */
    method CopyToSlot(tail: nat) returns (ghost to: nat)
      requires Rep() && Loggable() && Pinned() && Quiet(bc.bufs, dev, lh, 0) && tail < |lh|
      modifies bc
      ensures bc.panicked <==> Starved(old(bc.bufs), dev, g.start + tail + 1)
      ensures !bc.panicked ==> bc.Valid() && bc.pins == old(bc.pins)
      ensures !bc.panicked ==> lh[tail] in cache && bc.disk == old(bc.disk)[g.start + tail + 1 := cache[lh[tail]]]
      ensures !bc.panicked ==> Touch(old(bc.bufs), bc.bufs, dev, g.start + tail + 1, cache[lh[tail]], to)
    {
      bc.Facts();
      ghost var bufs, b, n := bc.bufs, lh[tail], g.start + tail + 1;
      assert b in lh && LoggedAt(bufs, bc.pins, dev, cache, place, b) && QuietAt(bufs, dev, lh, tail);
      ghost var k := place[b];
      assert BufferCache.CountAt(bufs, bc.pins, bc.waiting, k);
      var i := FetchLog(g.start + tail + 1);
      to := i;
      if bc.panicked {
        return;
      }
      assert i != k && bc.bufs[k] == bufs[k];
      var from := FetchCached(lh[tail], k);
      PutBlock(i, bc.bufs[from].data);
      bc.Brelse(from);
      bc.Brelse(i);
    }

    /** The first t slots hold their blocks' logged contents d; everything else is as in im. */
    ghost predicate Written(im: Image<Block>, d: seq<Block>, t: nat, tr: seq<ImageWrite<Block>>)
      reads this, bc
    {
      && Fitted(g, bc.disk) && t <= |d| && t <= |im.slots|
      && Im() == im.(slots := d[..t] + im.slots[t..]) && trace == tr + SlotWrites(d[..t])
    }

    /** One turn of write_log's loop. */
    method LogNext(tail: nat, ghost im: Image<Block>, ghost d: seq<Block>, ghost tr: seq<ImageWrite<Block>>)
      requires Rep() && Loggable() && Pinned() && Quiet(bc.bufs, dev, lh, 0) && tail < |lh|
      requires Written(im, d, tail, tr) && d == LogRuns.Data(lh, cache) && |im.slots| == g.nlog - 1
      modifies bc, this`trace
      ensures bc.panicked <==> SlotStarved(g, old(bc.bufs), dev, tail)
      ensures !bc.panicked ==> Rep() && Pinned() && Quiet(bc.bufs, dev, lh, 0) && bc.pins == old(bc.pins)
      ensures !bc.panicked ==> SameStarved(old(bc.bufs), bc.bufs, dev) && Written(im, d, tail + 1, tr)
    {
      CopyStep(im.slots, d, tail);
      SlotWritesExtend(tr, d, tail);
      LogOne(tail);
    }

    method LogOne(tail: nat)
      requires Rep() && Loggable() && Pinned() && Quiet(bc.bufs, dev, lh, 0) && tail < |lh|
      modifies bc, this`trace
      ensures bc.panicked <==> SlotStarved(g, old(bc.bufs), dev, tail)
      ensures !bc.panicked ==> Rep() && Pinned() && Quiet(bc.bufs, dev, lh, 0) && bc.pins == old(bc.pins)
      ensures !bc.panicked ==> SameStarved(old(bc.bufs), bc.bufs, dev) && lh[tail] in cache
      ensures !bc.panicked ==> Im() == Put(old(Im()), ToSlot(tail, cache[lh[tail]]))
      ensures !bc.panicked ==> trace == old(trace) + [ToSlot(tail, cache[lh[tail]])]
    {
      bc.Facts();
      ghost var bufs, disk, waiting, n := bc.bufs, bc.disk, bc.waiting, g.start + tail + 1;
      ghost var k := CopyToSlot(tail);
      if bc.panicked {
        return;
      }
      trace := trace + [ToSlot(tail, cache[lh[tail]])];
      TouchKeeps(g, dev, bufs, disk, bc.pins, waiting, cache, place, lh, 0, n, cache[lh[tail]], k, bc.bufs, bc.disk);
    }

    /** Copy modified blocks from the cache to log slots; nothing else changes. */
    method WriteLog()
      requires Rep() && Loggable() && Pinned() && Quiet(bc.bufs, dev, lh, 0)
      modifies bc, this`trace
      ensures bc.panicked <==> exists t: nat :: t < |lh| && SlotStarved(g, old(bc.bufs), dev, t)
      ensures !bc.panicked ==> Rep() && Pinned() && Quiet(bc.bufs, dev, lh, 0) && bc.pins == old(bc.pins)
      ensures !bc.panicked ==> SameStarved(old(bc.bufs), bc.bufs, dev)
      ensures !bc.panicked ==> Im() == old(Im()).(slots := LogRuns.Data(lh, cache) + old(Im()).slots[|lh|..])
      ensures !bc.panicked ==> trace == old(trace) + SlotWrites(LogRuns.Data(lh, cache))
    {
      ghost var d := LogRuns.Data(lh, cache);
      ghost var im, bufs0, tr := Im(), bc.bufs, trace;
      var tail := 0;
      while tail < |lh|
        invariant 0 <= tail <= |lh| && Rep() && Pinned() && Quiet(bc.bufs, dev, lh, 0) && bc.pins == old(bc.pins)
        invariant Written(im, d, tail, tr)
        invariant SameStarved(bufs0, bc.bufs, dev) && forall t: nat :: t < tail ==> !SlotStarved(g, bufs0, dev, t)
      {
        assert SlotStarved(g, bc.bufs, dev, tail) <==> SlotStarved(g, bufs0, dev, tail);
        LogNext(tail, im, d, tr);
        if bc.panicked {
          return;
        }
        tail := tail + 1;
      }
      assert d[..|lh|] == d;
    }

    /** Write the in-memory header to disk: the commit point. */
    method WriteHead()
      requires Rep() && Loggable() && Pinned() && Quiet(bc.bufs, dev, lh, 0)
      modifies bc, this`trace
      ensures bc.panicked <==> Starved(old(bc.bufs), dev, g.start)
      ensures !bc.panicked ==> Rep() && Pinned() && Quiet(bc.bufs, dev, lh, 0) && bc.pins == old(bc.pins)
      ensures !bc.panicked ==> SameStarved(old(bc.bufs), bc.bufs, dev) && (AllIdle(old(bc.bufs)) ==> AllIdle(bc.bufs))
      ensures !bc.panicked ==> Im() == old(Im()).(head := lh) && trace == old(trace) + [ToHead(lh)]
    {
      assert forall i :: 0 <= i < |lh| ==> lh[i] in lh;
      bc.Facts();
      ghost var bufs, disk, waiting := bc.bufs, bc.disk, bc.waiting;
      ghost var k, hb := HeadIO();
      if bc.panicked {
        return;
      }
      trace := trace + [ToHead(lh)];
      TouchKeeps(g, dev, bufs, disk, bc.pins, waiting, cache, place, lh, 0, g.start, hb, k, bc.bufs, bc.disk);
    }

    /** bread(start), fill in the list, bwrite, brelse. */
    method HeadIO() returns (ghost k: nat, ghost hb: Block)
      requires Rep() && HeaderFits(lh)
      modifies bc
      ensures bc.panicked <==> Starved(old(bc.bufs), dev, g.start)
      ensures !bc.panicked ==> bc.Valid() && bc.pins == old(bc.pins) && GetWord(hb, 0) == |lh| && DecodeHead(hb) == lh
      ensures !bc.panicked ==>
        bc.disk == old(bc.disk)[g.start := hb] && Touch(old(bc.bufs), bc.bufs, dev, g.start, hb, k)
    {
      hb := bc.disk[g.start];
      var i := FetchLog(g.start);
      k := i;
      if bc.panicked {
        return;
      }
      var buf := FillHead(bc.bufs[i].data, lh);
      PutBlock(i, buf);
      bc.Brelse(i);
      hb := buf;
    }

    /** The buffer of a block to install: pinned buffer k, or in recovery whatever bread finds. */
    method FetchHome(b: nat, recovering: bool, ghost k: nat) returns (i: nat)
      requires dev != 0 && bc.Valid() && BufferCache.CleanIdle(bc.bufs, bc.disk) && BufferCache.Only(bc.bufs, dev)
      requires !recovering ==> BufferCache.IsFor(bc.bufs, dev, b, k) && bc.bufs[k].valid && !bc.bufs[k].locked
      requires recovering ==> BufferCache.Unheld(bc.bufs, dev, b) && !BufferCache.NoneSpare(bc.bufs)
      modifies bc`bufs, bc`waiting, bc`panicked
      ensures
        && bc.Valid() && BufferCache.CleanIdle(bc.bufs, bc.disk) && BufferCache.Only(bc.bufs, dev)
        && bc.waiting == old(bc.waiting)
      ensures Visits(old(bc.bufs), dev, b, i) && (!recovering ==> i == k)
      ensures bc.bufs == old(bc.bufs)[i := BufferCache.Buf(true, dev, b, old(bc.bufs)[i].refcnt + 1, true,
                                                           bc.bufs[i].data)]
    {
      if recovering {
        var asleep;
        i, asleep := bc.Bread(dev, b);
        assert BufferCache.IsFor(bc.bufs, dev, b, i);
      } else {
        i := FetchCached(b, k);
      }
    }

    /** What installing the block at `tail` relies on: in recovery every buffer is idle, otherwise
        the block sits pinned in buffer k and its slot has a buffer. */
    ghost predicate CanInstall(tail: nat, recovering: bool, k: nat)
      reads this, bc
    {
      && Rep() && tail < |lh| && tail < g.nlog - 1 && g.IsHome(lh[tail]) && QuietAt(bc.bufs, dev, lh, tail)
      && if recovering then AllIdle(bc.bufs) else
           && k < NBUF && BufferCache.IsFor(bc.bufs, dev, lh[tail], k) && bc.bufs[k].valid && bc.pins[k] > 0
           && !SlotStarved(g, bc.bufs, dev, tail)
    }

    /** lbuf = bread(slot), dbuf = bread(block). */
    method FetchPair(tail: nat, recovering: bool, ghost k: nat) returns (lbuf: nat, dbuf: nat)
      requires CanInstall(tail, recovering, k)
      modifies bc`bufs, bc`waiting, bc`panicked
      ensures
        && bc.Valid() && BufferCache.CleanIdle(bc.bufs, bc.disk) && BufferCache.Only(bc.bufs, dev)
        && bc.waiting == old(bc.waiting)
      ensures (!recovering ==> dbuf == k && old(bc.bufs)[k].refcnt > 0)
      ensures HoldsBoth(old(bc.bufs), bc.bufs, dev, g.start + tail + 1, bc.disk[g.start + tail + 1], lbuf, lh[tail],
                        dbuf)
    {
      bc.Facts();
      ghost var bufs, b, n := bc.bufs, lh[tail], g.start + tail + 1;
      assert !recovering ==> BufferCache.CountAt(bufs, bc.pins, bc.waiting, k) && !bufs[k].locked;
      assert recovering ==> bufs[0].refcnt == 0 && bufs[1].refcnt == 0;
      lbuf := FetchLog(g.start + tail + 1);
      ghost var one := bc.bufs;
      assert recovering ==> one[if lbuf == 0 then 1 else 0].refcnt == 0;
      assert !recovering ==> lbuf != k && one[k] == bufs[k];
      IdleUnheld(bufs, bc.pins, old(bc.waiting), dev, n, lbuf, one, b);
      dbuf := FetchHome(lh[tail], recovering, k);
      VisitsSame(one, bufs[lbuf := BufferCache.Buf(true, dev, n, bufs[lbuf].refcnt, false, bc.disk[n])], dev, b, dbuf,
                 lbuf);
    }

    /** Copy, bwrite(dbuf), unpin, and both given back. */
    method InstallIO(tail: nat, recovering: bool, ghost k: nat) returns (ghost l: nat, ghost i: nat)
      requires CanInstall(tail, recovering, k)
      modifies bc
      ensures bc.Valid() && (!recovering ==> i == k) && l < NBUF && i < NBUF
      ensures var n := g.start + tail + 1; var b := lh[tail]; var x := old(bc.disk)[n];
        && bc.disk == old(bc.disk)[b := x] && Visits(old(bc.bufs), dev, n, l)
        && var mid := old(bc.bufs)[l := BufferCache.Buf(true, dev, n, old(bc.bufs)[l].refcnt, false, x)];
        && Visits(mid, dev, b, i) && (!recovering ==> mid[i].refcnt > 0)
        && bc.bufs == mid[i := BufferCache.Buf(true, dev, b, if recovering then mid[i].refcnt else mid[i].refcnt - 1,
                                               false, x)]
      ensures bc.pins == if recovering then old(bc.pins) else old(bc.pins)[k := old(bc.pins)[k] - 1]
    {
      var lbuf, dbuf := FetchPair(tail, recovering, k);
      PutBlock(dbuf, bc.bufs[lbuf].data);
      if !recovering {
        bc.Bunpin(dbuf);
      }
      GiveBack(lbuf, dbuf);
      l, i := lbuf, dbuf;
    }

    method GiveBack(l: nat, i: nat)
      requires bc.Valid() && l < NBUF && i < NBUF && l != i && bc.bufs[l].locked && bc.bufs[i].locked
      modifies bc
      ensures bc.Valid() && bc.pins == old(bc.pins) && bc.disk == old(bc.disk) && bc.waiting == old(bc.waiting)
      ensures old(bc.bufs)[l].refcnt > 0 && old(bc.bufs)[i].refcnt > 0
      ensures bc.bufs == old(bc.bufs)[l := old(bc.bufs)[l].(locked := false, refcnt := old(bc.bufs)[l].refcnt - 1)]
                                     [i := old(bc.bufs)[i].(locked := false, refcnt := old(bc.bufs)[i].refcnt - 1)]
    {
      bc.Brelse(l);
      bc.Brelse(i);
    }

    /** Read the on-disk header into memory. */
    method ReadHead()
      requires Rep() && WellFormed(Im()) && AllIdle(bc.bufs)
      modifies bc, this`lh
      ensures
        && Rep() && Listable() && lh == Im().head && bc.disk == old(bc.disk) && bc.pins == old(bc.pins)
        && AllIdle(bc.bufs)
    {
      bc.Facts();
      ghost var bufs, disk := bc.bufs, bc.disk;
      assert bufs[0].refcnt == 0;
      var k := FetchLog(g.start);
      var b := bc.bufs[k].data;
      lh := ReadList(b);
      bc.Brelse(k);
      assert disk == disk[g.start := b];
      VisitTidy(g, dev, bufs, disk, g.start, b, k, bufs[k].refcnt, bc.bufs, bc.disk);
    }

    /** One turn of the loop of install_trans outside recovery. */
    method InstallPinned(tail: nat)
      requires
        && Rep() && Loggable() && tail < |lh| && Quiet(bc.bufs, dev, lh, tail) && !SlotStarved(g, bc.bufs, dev, tail)
      requires Logged(bc.bufs, bc.pins, dev, cache, place, lh, tail)
      modifies bc, this`trace
      ensures Rep() && Quiet(bc.bufs, dev, lh, tail + 1) && Logged(bc.bufs, bc.pins, dev, cache, place, lh, tail + 1)
      ensures NoneStarved(old(bc.bufs), bc.bufs, dev)
      ensures Im() == old(Im()).(home := old(Im()).home[lh[tail] := old(Im()).slots[tail]])
      ensures trace == old(trace) + [ToHome(lh[tail], old(Im()).slots[tail])]
      ensures bc.pins == UnpinOne(old(bc.pins), place, lh[tail])
    {
      bc.Facts();
      ghost var bufs, disk, pins, waiting := bc.bufs, bc.disk, bc.pins, bc.waiting;
      ghost var b, n := lh[tail], g.start + tail + 1;
      assert b in lh && LoggedAt(bufs, pins, dev, cache, place, b) && QuietAt(bufs, dev, lh, tail);
      ghost var k, x := place[b], disk[n];
      ghost var l, i := InstallIO(tail, false, k);
      trace := trace + [ToHome(b, x)];
      ghost var mid := bufs[l := BufferCache.Buf(true, dev, n, bufs[l].refcnt, false, x)];
      assert disk == disk[n := x];
      TouchKeeps(g, dev, bufs, disk, pins, waiting, cache, place, lh, tail, n, x, l, mid, disk);
      MidUnique(bufs, mid, dev, n, x, l);
      assert LoggedAt(mid, pins, dev, cache, place, b);
      InstallKeeps(g, dev, mid, disk, pins, cache, place, lh, tail, x, k, bc.bufs, bc.disk, bc.pins);
    }

    /** One turn of it in recovery. */
    method InstallRecovered(tail: nat)
      requires Rep() && Listable() && tail < |lh| && AllIdle(bc.bufs)
      modifies bc, this`trace
      ensures Rep() && AllIdle(bc.bufs) && bc.pins == old(bc.pins)
      ensures Im() == old(Im()).(home := old(Im()).home[lh[tail] := old(Im()).slots[tail]])
      ensures trace == old(trace) + [ToHome(lh[tail], old(Im()).slots[tail])]
    {
      bc.Facts();
      ghost var bufs, disk, pins, waiting := bc.bufs, bc.disk, bc.pins, bc.waiting;
      ghost var b, n := lh[tail], g.start + tail + 1;
      IdleQuiet(bufs, pins, waiting, dev, lh, tail);
      assert b in lh;
      ghost var x := disk[n];
      ghost var l, i := InstallIO(tail, true, 0);
      trace := trace + [ToHome(b, x)];
      ghost var mid := bufs[l := BufferCache.Buf(true, dev, n, bufs[l].refcnt, false, x)];
      assert disk == disk[n := x];
      VisitTidy(g, dev, bufs, disk, n, x, l, bufs[l].refcnt, mid, disk);
      MidUnique(bufs, mid, dev, n, x, l);
      RecoverKeeps(g, dev, mid, disk, b, x, i, bc.bufs, bc.disk);
    }

    /** What install_trans relies on from its t-th turn on. */
    ghost predicate Installing(recovering: bool, t: nat)
      reads this, bc
    {
      && Rep() && Listable() && t <= |lh|
      && if recovering then AllIdle(bc.bufs) else
           && Loggable() && Quiet(bc.bufs, dev, lh, t) && Logged(bc.bufs, bc.pins, dev, cache, place, lh, t)
           && forall u: nat {:trigger SlotStarved(g, bc.bufs, dev, u)} :: u < |lh| ==> !SlotStarved(g, bc.bufs, dev, u)
    }

    /** One turn of the loop of install_trans. */
    method InstallBlock(tail: nat, recovering: bool)
      requires Installing(recovering, tail) && tail < |lh|
      modifies bc, this`trace
      ensures Installing(recovering, tail + 1) && NoneStarved(old(bc.bufs), bc.bufs, dev)
      ensures Im() == old(Im()).(home := old(Im()).home[lh[tail] := old(Im()).slots[tail]])
      ensures trace == old(trace) + [ToHome(lh[tail], old(Im()).slots[tail])]
      ensures bc.pins == if recovering then old(bc.pins) else UnpinOne(old(bc.pins), place, lh[tail])
    {
      ghost var bufs := bc.bufs;
      if recovering {
        InstallRecovered(tail);
        assert bc.bufs[0].refcnt == 0;
      } else {
        InstallPinned(tail);
        forall u: nat | u < |lh|
          ensures !SlotStarved(g, bc.bufs, dev, u)
        {
          assert !SlotStarved(g, bufs, dev, u);
        }
      }
    }

    /** The first t blocks d are installed; everything else is as in im. */
    ghost predicate Placed(im: Image<Block>, d: seq<Block>, t: nat, tr: seq<ImageWrite<Block>>)
      reads this, bc
    {
      && Fitted(g, bc.disk) && t <= |lh| == |d| && |lh| <= |im.slots| && d == im.slots[..|lh|]
      && Im() == im.(home := im.home + TxMap(lh[..t], d[..t])) && trace == tr + HomeWrites(lh[..t], d[..t])
    }

    method InstallNext(tail: nat, recovering: bool, ghost im: Image<Block>, ghost d: seq<Block>,
                       ghost tr: seq<ImageWrite<Block>>)
      requires Installing(recovering, tail) && tail < |lh| && Placed(im, d, tail, tr)
      modifies bc, this`trace
      ensures Installing(recovering, tail + 1) && NoneStarved(old(bc.bufs), bc.bufs, dev)
      ensures Placed(im, d, tail + 1, tr)
      ensures bc.pins == if recovering then old(bc.pins) else UnpinOne(old(bc.pins), place, lh[tail])
    {
      InstallStep(im.home, lh, d, tail);
      HomeWritesExtend(tr, lh, d, tail);
      InstallBlock(tail, recovering);
    }

    /** Copy committed blocks from the log to their home locations. */
    method InstallTrans(recovering: bool)
      requires Installing(recovering, 0)
      modifies bc, this`trace
      ensures Installing(recovering, |lh|) && NoneStarved(old(bc.bufs), bc.bufs, dev)
      ensures var d := old(Im()).slots[..|lh|];
        && Im() == old(Im()).(home := old(Im()).home + TxMap(lh, d))
        && trace == old(trace) + HomeWrites(lh, d)
      ensures bc.pins == if recovering then old(bc.pins) else Unpinned(old(bc.pins), place, lh, |lh|)
    {
      ghost var im, bufs0, tr := Im(), bc.bufs, trace;
      ghost var d := im.slots[..|lh|];
      assert im.home + TxMap<Block>([], []) == im.home;
      var tail := 0;
      while tail < |lh|
        invariant 0 <= tail <= |lh| && Installing(recovering, tail) && NoneStarved(bufs0, bc.bufs, dev)
        invariant Placed(im, d, tail, tr)
        invariant bc.pins == if recovering then old(bc.pins) else Unpinned(old(bc.pins), place, lh, tail)
      {
        InstallNext(tail, recovering, im, d, tr);
        tail := tail + 1;
      }
      assert lh[..|lh|] == lh && d[..|lh|] == d;
    }

    /** Recovery from any well-formed disk, whatever crash produced it. */
    method RecoverFromLog()
      requires Rep() && WellFormed(Im()) && AllIdle(bc.bufs) && cache == map[]
      modifies bc, this`trace, this`lh
      ensures Rep() && lh == [] && bc.pins == old(bc.pins) && AllIdle(bc.bufs)
      ensures Im() == RecoverImage(old(Im()), |old(Im()).head| + 1)
      ensures trace == old(trace) + RecoverWrites(old(Im()))
    {
      ReadHead();
      InstallTrans(true);
      lh := [];
      assert bc.bufs[0].refcnt == 0;
      WriteHead();
    }

    /** Commit the pinned blocks named by the in-memory header. It needs a buffer for the header and
        for each slot, and panics exactly when the cache has none to give. */
    method Commit()
      requires Rep() && Loggable() && Pinned() && Quiet(bc.bufs, dev, lh, 0) && Im().head == []
      modifies bc, this`trace, this`lh, this`cache
      ensures bc.panicked <==> old(lh) != [] && NoBuffers(g, old(bc.bufs), dev, |old(lh)|)
      ensures !bc.panicked ==> Rep() && lh == [] && cache == map[]
      ensures !bc.panicked ==> bc.pins == Unpinned(old(bc.pins), place, old(lh), |old(lh)|)
      ensures !bc.panicked ==> trace == old(trace) + CommitWrites(old(lh), LogRuns.Data(old(lh), old(cache)))
      ensures !bc.panicked ==> CommitsTo(old(Im()), old(lh), LogRuns.Data(old(lh), old(cache)), Im())
    {
      ghost var l, d, im0, t := lh, LogRuns.Data(lh, cache), Im(), trace;
      if |lh| > 0 {
        Persist();
        if bc.panicked {
          return;
        }
        assert Im().slots[..|l|] == d;
        Finish();
        CommitPhases(im0, l, d, Im(), t, trace);
      }
    }

    /** write_log and write_head: afterwards the transaction is committed. */
    method Persist()
      requires Rep() && Loggable() && Pinned() && Quiet(bc.bufs, dev, lh, 0)
      modifies bc, this`trace
      ensures bc.panicked <==> NoBuffers(g, old(bc.bufs), dev, |lh|)
      ensures !bc.panicked ==> Installing(false, 0) && bc.pins == old(bc.pins) && !Starved(bc.bufs, dev, g.start)
      ensures !bc.panicked ==> Im() == Image(lh, LogRuns.Data(lh, cache) + old(Im()).slots[|lh|..], old(Im()).home)
      ensures !bc.panicked ==> trace == old(trace) + SlotWrites(LogRuns.Data(lh, cache)) + [ToHead(lh)]
    {
      ghost var bufs0 := bc.bufs;
      WriteLog();
      if bc.panicked {
        return;
      }
      ghost var bufs1 := bc.bufs;
      assert Starved(bufs1, dev, g.start) <==> Starved(bufs0, dev, g.start);
      WriteHead();
      if !bc.panicked {
        assert !Starved(bc.bufs, dev, g.start);
        forall u: nat | u < |lh|
          ensures !SlotStarved(g, bc.bufs, dev, u)
        {
          assert !SlotStarved(g, bufs0, dev, u);
          assert (Starved(bufs1, dev, g.start + u + 1) <==> Starved(bufs0, dev, g.start + u + 1));
        }
      }
    }

    /** install_trans and the clearing of the header. */
    method Finish()
      requires Installing(false, 0) && !Starved(bc.bufs, dev, g.start)
      modifies bc, this`trace, this`lh, this`cache
      ensures Rep() && lh == [] && cache == map[] && bc.pins == Unpinned(old(bc.pins), place, old(lh), |old(lh)|)
      ensures Im() == Image([], old(Im()).slots, old(Im()).home + TxMap(old(lh), old(Im()).slots[..|old(lh)|]))
      ensures trace == old(trace) + HomeWrites(old(lh), old(Im()).slots[..|old(lh)|]) + [ToHead([])]
    {
      ghost var bufs0 := bc.bufs;
      InstallTrans(false);
      assert Starved(bc.bufs, dev, g.start) ==> Starved(bufs0, dev, g.start);
      lh := [];
      cache := map[];
      WriteHead();
    }

    /** One pass of begin_op's loop; false stands for going to sleep on the log. */
    method BeginOp() returns (admitted: bool)
      requires outstanding >= 0 && (committing || Traced())
      modifies this`outstanding, this`run, this`steps
      ensures admitted <==> !committing && LogRuns.HasRoom(|lh|, old(outstanding))
      ensures outstanding == old(outstanding) + if admitted then 1 else 0
      ensures committing || Traced()
      ensures admitted ==> run == old(run) + [run[|run| - 1]] && steps == old(steps) + [LogRuns.BeginOp]
    {
      if committing {
        return false;
      } else if |lh| + (outstanding + 1) * MAXOPBLOCKS > LOGSIZE {
        return false;
      }
      outstanding := outstanding + 1;
      ghost var s := run[|run| - 1];
      ghost var s' := s.(ops := s.ops + [LogRuns.Op(s.nextOp, 0)], nextOp := s.nextOp + 1);
      LogRuns.Extend(run, steps, first, s', LogRuns.BeginOp);
      run, steps := run + [s'], steps + [LogRuns.BeginOp];
      return true;
    }

    /** bread by an operation or a reader: the block's latest contents, or asleep while another holds it. */
    method ReadBlock(b: nat) returns (k: nat, asleep: bool)
      requires Rep() && Loggable() && Pinned() && Traced() && g.IsHome(b)
      modifies bc`bufs, bc`waiting, bc`panicked
      ensures bc.panicked <==> Starved(old(bc.bufs), dev, b)
      ensures !bc.panicked ==> Rep() && Pinned() && Traced() && (asleep <==> !BufferCache.Unheld(old(bc.bufs), dev, b))
      ensures !bc.panicked ==> BufferCache.IsFor(bc.bufs, dev, b, k) && bc.bufs == old(bc.bufs)[k := bc.bufs[k]]
      ensures !bc.panicked && !asleep ==> bc.bufs[k].locked && bc.bufs[k].valid && bc.waiting == old(bc.waiting)
      ensures !bc.panicked && !asleep ==> bc.bufs[k].data == BufferCache.Latest(old(bc.bufs), bc.disk, dev, b)
    {
      bc.Facts();
      ghost var bufs, waiting := bc.bufs, bc.waiting;
      TidyReads(g, dev, bufs, bc.disk, b);
      k, asleep := bc.Bread(dev, b);
      if !bc.panicked {
        bc.Facts();
        HomeTidy(g, dev, bufs, bc.disk, k, bc.bufs[k]);
        StillPinned(bufs, bc.pins, waiting);
      }
    }

    /** Calls that respect references leave what was logged in its place. */
    lemma StillPinned(bufs: seq<BufferCache.Buf>, pins: seq<nat>, waiting: seq<nat>)
      requires Logged(bufs, pins, dev, cache, place, lh, 0) && BufferCache.Counted(bufs, pins, waiting)
      requires BufferCache.Keeps(bufs, bc.bufs) && bc.pins == pins
      requires forall i :: 0 <= i < |bufs| && bufs[i].locked ==> bc.bufs[i].locked
      ensures Pinned()
    {
      forall j: nat | j < |lh|
        ensures LoggedAt(bc.bufs, bc.pins, dev, cache, place, lh[j])
      {
        assert LoggedAt(bufs, pins, dev, cache, place, lh[j]);
        LoggedStays(bufs, pins, waiting, bc.bufs, bc.pins, dev, cache, place, lh[j]);
      }
    }

    /** The holder of a home block's buffer changes its contents. */
    method Change(k: nat, data: Block)
      requires Rep() && Loggable() && Pinned() && Traced()
      requires k < NBUF && bc.bufs[k].locked && bc.bufs[k].valid && bc.bufs[k].dev == dev && bc.bufs[k].blockno < g.size
      modifies bc`bufs
      ensures Rep() && Pinned() && Traced() && bc.bufs == old(bc.bufs)[k := old(bc.bufs)[k].(data := data)]
    {
      Held(k);
      ghost var bufs := bc.bufs;
      bc.Store(k, data);
      HomeTidy(g, dev, bufs, bc.disk, k, bc.bufs[k]);
      forall j: nat | j < |lh|
        ensures LoggedAt(bc.bufs, bc.pins, dev, cache, place, lh[j])
      {
        assert LoggedAt(bufs, bc.pins, dev, cache, place, lh[j]);
      }
    }

    /** brelse of a home block that is as it was logged, or as the disk has it. */
    method Release(k: nat)
      requires Rep() && Loggable() && Pinned() && Traced()
      requires k < NBUF && bc.bufs[k].locked && bc.bufs[k].dev == dev && bc.bufs[k].blockno < g.size
      requires var b := bc.bufs[k].blockno;
        bc.bufs[k].data == if b in cache then cache[b] else bc.disk[b]
      modifies bc`bufs, bc`next, bc`prev, bc`order, bc`stamp, bc`clock, bc`panicked
      ensures Rep() && Pinned() && Traced() && old(bc.bufs)[k].refcnt > 0
      ensures bc.bufs ==
        old(bc.bufs)[k := old(bc.bufs)[k].(locked := false, refcnt := old(bc.bufs)[k].refcnt - 1)]
    {
      Held(k);
      bc.Facts();
      ghost var bufs, b := bc.bufs, bc.bufs[k].blockno;
      assert BufferCache.CountAt(bufs, bc.pins, bc.waiting, k);
      if b in cache {
        assert b in lh && LoggedAt(bufs, bc.pins, dev, cache, place, b) && BufferCache.Differ(bufs, k, place[b]);
      }
      bc.Brelse(k);
      HomeTidy(g, dev, bufs, bc.disk, k, bc.bufs[k]);
      forall j: nat | j < |lh|
        ensures LoggedAt(bc.bufs, bc.pins, dev, cache, place, lh[j])
      {
        assert lh[j] in lh && LoggedAt(bufs, bc.pins, dev, cache, place, lh[j]);
      }
    }

    /** Record the block of the buffer k the caller holds, and pin it; a block already in the header
        is absorbed. `panicked` is any of log_write's panics; `which` is the caller's operation. */
    method LogWrite(k: nat, ghost which: nat) returns (panicked: bool)
      requires Rep() && Loggable() && Pinned() && Traced() && (outstanding >= 1 ==> which < outstanding)
      requires k < NBUF && bc.bufs[k].locked && bc.bufs[k].valid && bc.bufs[k].dev == dev && bc.bufs[k].blockno < g.size
      modifies this`lh, this`cache, this`place, this`run, this`steps, bc`bufs, bc`pins
      ensures Rep() && Loggable() && Pinned() && Traced()
      ensures panicked <==> LogRuns.TooBig(old(|lh|), g.nlog - 1) || outstanding < 1
      ensures panicked ==>
        lh == old(lh) && cache == old(cache) && bc.bufs == old(bc.bufs) && bc.pins == old(bc.pins) && run == old(run)
      ensures !panicked ==> lh == LogRuns.AddEntry(old(lh), bc.bufs[k].blockno)
      ensures !panicked ==> cache == old(cache)[bc.bufs[k].blockno := bc.bufs[k].data]
      ensures !panicked ==>
        bc.pins == if bc.bufs[k].blockno in old(lh) then old(bc.pins) else old(bc.pins)[k := old(bc.pins)[k] + 1]
      ensures !panicked ==> bc.bufs == old(bc.bufs)[k := old(bc.bufs)[k].(refcnt := bc.bufs[k].refcnt)]
      ensures !panicked ==> place == old(place)[bc.bufs[k].blockno := k]
      ensures !panicked ==> run == old(run) + [run[|run| - 1]]
      ensures !panicked ==> steps == old(steps) + [LogRuns.LogWrite(which, bc.bufs[k].blockno, bc.bufs[k].data)]
    {
      if |lh| >= LOGSIZE || |lh| >= g.nlog - 1 {
        return true;
      }
      if outstanding < 1 {
        return true;
      }
      Record(k, which);
      return false;
    }

    /** The rest of log_write, as a step of the run. */
    method Record(k: nat, ghost which: nat)
      requires Rep() && Loggable() && Pinned() && Traced() && which < outstanding && !LogRuns.TooBig(|lh|, g.nlog - 1)
      requires k < NBUF && bc.bufs[k].locked && bc.bufs[k].valid && bc.bufs[k].dev == dev && bc.bufs[k].blockno < g.size
      modifies this`lh, this`cache, this`place, this`run, this`steps, bc`bufs, bc`pins
      ensures Rep() && Loggable() && Pinned() && Traced()
      ensures lh == LogRuns.AddEntry(old(lh), bc.bufs[k].blockno)
      ensures cache == old(cache)[bc.bufs[k].blockno := bc.bufs[k].data]
      ensures bc.pins == if bc.bufs[k].blockno in old(lh) then old(bc.pins) else old(bc.pins)[k := old(bc.pins)[k] + 1]
      ensures bc.bufs == old(bc.bufs)[k := old(bc.bufs)[k].(refcnt := bc.bufs[k].refcnt)]
      ensures place == old(place)[bc.bufs[k].blockno := k]
      ensures run == old(run) + [run[|run| - 1]]
      ensures steps == old(steps) + [LogRuns.LogWrite(which, bc.bufs[k].blockno, bc.bufs[k].data)]
    {
      Held(k);
      ghost var b, x, s := bc.bufs[k].blockno, bc.bufs[k].data, run[|run| - 1];
      ListBlock(k);
      ghost var run', steps', s' := LogRuns.WriteRun(run, steps, first, s, which, b, x);
      run, steps := run', steps';
    }

    /** A block with a held buffer is a home block, and the buffer is referenced. */
    lemma Held(k: nat)
      requires Rep() && k < NBUF && bc.bufs[k].locked && bc.bufs[k].dev == dev && bc.bufs[k].blockno < g.size
      ensures g.IsHome(bc.bufs[k].blockno) && bc.bufs[k].refcnt > 0
    {
      bc.Facts();
      assert TidyAt(g, dev, bc.bufs, bc.disk, k) && BufferCache.CountAt(bc.bufs, bc.pins, bc.waiting, k);
    }

    /** The search through the header, and the new entry and pin if the block is not there. */
    method ListBlock(k: nat)
      requires Rep() && Loggable() && Pinned() && |lh| < LOGSIZE && |lh| < g.nlog - 1
      requires
        && k < NBUF && bc.bufs[k].locked && bc.bufs[k].refcnt > 0 && bc.bufs[k].valid && bc.bufs[k].dev == dev
        && g.IsHome(bc.bufs[k].blockno)
      modifies this`lh, this`cache, this`place, bc`bufs, bc`pins
      ensures Rep() && Loggable() && Pinned() && lh == LogRuns.AddEntry(old(lh), bc.bufs[k].blockno)
      ensures cache == old(cache)[bc.bufs[k].blockno := bc.bufs[k].data]
      ensures bc.bufs == old(bc.bufs)[k := old(bc.bufs)[k].(refcnt := bc.bufs[k].refcnt)]
      ensures place == old(place)[bc.bufs[k].blockno := k]
      ensures bc.pins == if bc.bufs[k].blockno in old(lh) then old(bc.pins) else old(bc.pins)[k := old(bc.pins)[k] + 1]
    {
      bc.Facts();
      ghost var bufs, pins, l, c, p := bc.bufs, bc.pins, lh, cache, place;
      var b := bc.bufs[k].blockno;
      var i := 0;
      while i < |lh| && lh[i] != b
        invariant 0 <= i <= |lh|
        invariant b !in lh[..i]
      {
        i := i + 1;
      }
      if i == |lh| {
        assert lh == lh[..i];
        lh := lh + [b];
        bc.Bpin(k);
        PinTidy(g, dev, bufs, bc.disk, k, bufs[k].refcnt + 1);
      } else {
        assert lh[i] in lh;
        lh := lh[i := b];
        assert lh == l;
      }
      cache, place := cache[b := bc.bufs[k].data], place[b := k];
      LogMore(dev, bufs, pins, c, p, l, b, k, bc.bufs, bc.pins, cache, place, lh);
    }

    /** commit(), as the steps of a commit in the run. */
    method LastOut(ghost s: Sys)
      requires Rep() && Loggable() && Pinned() && Quiet(bc.bufs, dev, lh, 0) && Im().head == [] && outstanding == 0
      requires LogRuns.IsRun(run, steps, first) && run[|run| - 1] == s && s.phase == LogRuns.Committing(0)
      requires s.im == Im() == s.base && s.lh == lh && s.cache == cache && s.ops == []
      modifies bc, this`trace, this`lh, this`cache, this`run, this`steps
      ensures bc.panicked <==> old(lh) != [] && NoBuffers(g, old(bc.bufs), dev, |old(lh)|)
      ensures !bc.panicked ==>
        Rep() && Loggable() && Pinned() && lh == [] && Traced() && old(run) <= run && Im().head == []
      ensures !bc.panicked ==> bc.pins == Unpinned(old(bc.pins), place, old(lh), |old(lh)|)
      ensures !bc.panicked ==> trace == old(trace) + CommitWrites(old(lh), LogRuns.Data(old(lh), old(cache)))
      ensures !bc.panicked ==> CommitsTo(old(Im()), old(lh), LogRuns.Data(old(lh), old(cache)), Im())
    {
      ghost var run', steps' := LogRuns.CommitWhole(run, steps, first, s, LogRuns.Data(lh, cache));
      ghost var im, l, data, end := Im(), lh, LogRuns.Data(lh, cache), run'[|run'| - 1].im;
      Commit();
      if !bc.panicked {
        CommitsOne(im, l, data, end, Im());
        CommitsHead(im, l, data, end);
        run, steps := run', steps';
      }
    }

    /** There are as many buffers as log entries, so a full log has every buffer pinned and the commit
        finds none for the header block. */
    lemma FullLog()
      requires Rep() && Loggable() && Pinned() && |lh| == LOGSIZE
      ensures NoBuffers(g, bc.bufs, dev, |lh|)
    {
      bc.Facts();
      assert g.start !in lh;
      FullLogStarves(bc.bufs, bc.pins, bc.waiting, dev, cache, place, lh, g.start);
    }

    /** The last operation to end commits everything logged since the last commit. */
    method EndOp(ghost which: nat) returns (panicked: bool)
      requires committing || (Rep() && Loggable() && Pinned() && Traced() && which < outstanding && Im().head == [])
      requires outstanding == 1 && !committing ==> Quiet(bc.bufs, dev, lh, 0)
      modifies this, bc
      ensures panicked <==>
        old(committing) || (old(outstanding) == 1 && old(lh) != [] && NoBuffers(g, old(bc.bufs), dev, |old(lh)|))
      ensures !panicked ==> outstanding == old(outstanding) - 1 && !committing
      ensures !panicked ==> Rep() && Loggable() && Pinned() && Traced() && Im().head == [] && old(run) <= run
      ensures !panicked && outstanding != 0 ==>
        && bc.bufs == old(bc.bufs) && bc.disk == old(bc.disk) && bc.pins == old(bc.pins)
        && trace == old(trace) && lh == old(lh) && cache == old(cache) && place == old(place)
        && run == old(run) + [run[|run| - 1]] && steps == old(steps) + [LogRuns.EndOp(which)]
      ensures !panicked && outstanding == 0 ==>
        && lh == [] && bc.pins == Unpinned(old(bc.pins), old(place), old(lh), |old(lh)|)
        && trace == old(trace) + CommitWrites(old(lh), LogRuns.Data(old(lh), old(cache)))
        && CommitsTo(old(Im()), old(lh), LogRuns.Data(old(lh), old(cache)), Im())
    {
      outstanding := outstanding - 1;
      if committing {
        return true;
      }
      if outstanding == 0 {
        LastOp(which);
        return bc.panicked;
      }
      ghost var run', steps', s' := LogRuns.EndRun(run, steps, first, run[|run| - 1], which);
      run, steps := run', steps';
      return false;
    }

    /** end_op when no operation is left: commit with `committing` set. */
    method LastOp(ghost which: nat)
      requires Rep() && Loggable() && Pinned() && Im().head == [] && Quiet(bc.bufs, dev, lh, 0) && !committing
      requires outstanding == 0 && which == 0 && LogRuns.IsRun(run, steps, first)
      requires var s := run[|run| - 1];
        s.phase.Running? && s.im == Im() && s.lh == lh && s.cache == cache && |s.ops| == 1
      modifies this`committing, bc, this`trace, this`lh, this`cache, this`run, this`steps
      ensures bc.panicked <==> old(lh) != [] && NoBuffers(g, old(bc.bufs), dev, |old(lh)|)
      ensures !bc.panicked ==> !committing && Rep() && Loggable() && Pinned() && Traced() && Im().head == []
      ensures !bc.panicked ==> lh == [] && old(run) <= run
      ensures !bc.panicked ==> bc.pins == Unpinned(old(bc.pins), place, old(lh), |old(lh)|)
      ensures !bc.panicked ==> trace == old(trace) + CommitWrites(old(lh), LogRuns.Data(old(lh), old(cache)))
      ensures !bc.panicked ==> CommitsTo(old(Im()), old(lh), LogRuns.Data(old(lh), old(cache)), Im())
    {
      ghost var run', steps', s' := LogRuns.EndRun(run, steps, first, run[|run| - 1], which);
      run, steps := run', steps';
      committing := true;
      LastOut(s');
      if !bc.panicked {
        committing := false;
      }
    }
  }
}
