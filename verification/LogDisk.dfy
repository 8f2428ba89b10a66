/** The log on a disk of bytes reached through the buffer cache: the header block, the image a
    disk amounts to, and what one block's visit to the cache leaves behind. */
module LogDisk {
  import opened Common
  import opened Blocks
  import opened RedoLog
  import BufferCache
  import LogRuns

  type Buf = BufferCache.Buf

  // ------------------------------------------------------ header encoding

  predicate HeaderFits(lh: seq<nat>) {
    |lh| <= LOGSIZE && forall i :: 0 <= i < |lh| ==> lh[i] < WORD_LIMIT
  }

  /** write_head's loop: the first k entries stored after the count word. */
  function PutEntries(b: Block, lh: seq<nat>, k: nat): Block
    requires HeaderFits(lh) && k <= |lh|
  {
    if k == 0 then b else PutWord(PutEntries(b, lh, k - 1), k, lh[k - 1])
  }

  /** The header block write_head makes from buffer contents `b`; words past the
      count keep whatever they held. */
  function EncodeHead(b: Block, lh: seq<nat>): Block
    requires HeaderFits(lh)
  {
    PutEntries(PutWord(b, 0, |lh|), lh, |lh|)
  }

  function DecodeHead(b: Block): (lh: seq<nat>) {
    var n := GetWord(b, 0);
    if n <= LOGSIZE then seq(n, i requires 0 <= i < n => GetWord(b, i + 1)) else []
  }

  lemma {:induction false} PutEntriesWords(b: Block, lh: seq<nat>, k: nat, j: nat)
    requires HeaderFits(lh) && k <= |lh| && j < NWORDS
    ensures GetWord(PutEntries(b, lh, k), j) == if 1 <= j <= k then lh[j - 1] else GetWord(b, j)
  {
    if k > 0 {
      PutEntriesWords(b, lh, k - 1, j);
    }
  }

  /** read_head undoes write_head whatever the buffer held before. */
  lemma HeadRoundTrip(b: Block, lh: seq<nat>)
    requires HeaderFits(lh)
    ensures GetWord(EncodeHead(b, lh), 0) == |lh| && DecodeHead(EncodeHead(b, lh)) == lh
  {
    var c := PutWord(b, 0, |lh|);
    PutEntriesWords(c, lh, |lh|, 0);
    forall i | 0 <= i < |lh|
      ensures GetWord(EncodeHead(b, lh), i + 1) == lh[i]
    {
      PutEntriesWords(c, lh, |lh|, i + 1);
    }
  }

  /** write_head's loop over the buffered header. */
  method FillHead(buf: Block, lh: seq<nat>) returns (hb: Block)
    requires HeaderFits(lh)
    ensures GetWord(hb, 0) == |lh| && DecodeHead(hb) == lh
  {
    hb := PutWord(buf, 0, |lh|);
    ghost var c := hb;
    var i := 0;
    while i < |lh|
      invariant 0 <= i <= |lh|
      invariant hb == PutEntries(c, lh, i)
    {
      hb := PutWord(hb, i + 1, lh[i]);
      i := i + 1;
    }
    HeadRoundTrip(buf, lh);
  }

  /** read_head's loop. */
  method ReadList(b: Block) returns (lh: seq<nat>)
    requires GetWord(b, 0) <= LOGSIZE
    ensures lh == DecodeHead(b)
  {
    var n := GetWord(b, 0);
    lh := [];
    var i := 0;
    while i < n
      invariant 0 <= i <= n && |lh| == i
      invariant forall j :: 0 <= j < i ==> lh[j] == DecodeHead(b)[j]
    {
      lh := lh + [GetWord(b, i + 1)];
      i := i + 1;
    }
  }

  // ------------------------------------------------------------- the disk

  /** Where the log lives: header block at `start`, nlog - 1 slots after it. */
  datatype Geometry = Geometry(start: nat, nlog: nat, size: nat) {
    predicate Valid() {
      1 <= nlog && start + nlog <= size < WORD_LIMIT
    }
    predicate InLog(b: nat) {
      start <= b < start + nlog
    }
    predicate IsHome(b: nat) {
      b < size && !InLog(b)
    }
  }

  /** A disk of the right size whose header count is one write_head can have written. */
  predicate Fitted(g: Geometry, disk: seq<Block>) {
    g.Valid() && |disk| == g.size && GetWord(disk[g.start], 0) <= LOGSIZE
  }

  function Homes(g: Geometry, disk: seq<Block>): map<nat, Block>
    requires Fitted(g, disk)
  {
    map b: nat | b < g.size && !g.InLog(b) :: disk[b]
  }

  /** The disk as the log sees it. */
  function ImOf(g: Geometry, disk: seq<Block>): Image<Block>
    requires Fitted(g, disk)
  {
    Image(DecodeHead(disk[g.start]), disk[g.start + 1..g.start + g.nlog], Homes(g, disk))
  }

  /** What one bwrite means to the log. */
  function Classify(g: Geometry, b: nat, data: Block): ImageWrite<Block> {
    if b == g.start then ToHead(DecodeHead(data))
    else if g.InLog(b) then ToSlot(b - g.start - 1, data)
    else ToHome(b, data)
  }

  /** One block written changes the part of the image it belongs to. */
  lemma WriteIs(g: Geometry, disk: seq<Block>, b: nat, data: Block, disk': seq<Block>)
    requires Fitted(g, disk) && b < g.size && (b == g.start ==> GetWord(data, 0) <= LOGSIZE) && disk' == disk[b := data]
    ensures Fitted(g, disk') && Fits(ImOf(g, disk), Classify(g, b, data))
    ensures ImOf(g, disk') == Put(ImOf(g, disk), Classify(g, b, data))
  {
    WriteSlots(g, disk, b, data, disk');
    WriteHomes(g, disk, b, data, disk');
  }

  lemma WriteSlots(g: Geometry, disk: seq<Block>, b: nat, data: Block, disk': seq<Block>)
    requires Fitted(g, disk) && Fitted(g, disk') && b < g.size && disk' == disk[b := data]
    ensures ImOf(g, disk').slots ==
      if b != g.start && g.InLog(b) then ImOf(g, disk).slots[b - g.start - 1 := data] else ImOf(g, disk).slots
  {
  }

  lemma WriteHomes(g: Geometry, disk: seq<Block>, b: nat, data: Block, disk': seq<Block>)
    requires Fitted(g, disk) && Fitted(g, disk') && b < g.size && disk' == disk[b := data]
    ensures Homes(g, disk') == if g.InLog(b) then Homes(g, disk) else Homes(g, disk)[b := data]
  {
  }

  /** A disk whose header counts no blocks is formatted: well formed, with nothing in the log. */
  lemma BlankDisk(g: Geometry, disk: seq<Block>)
    requires g.Valid() && |disk| == g.size && GetWord(disk[g.start], 0) == 0
    ensures Fitted(g, disk) && ImOf(g, disk).head == [] && WellFormed(ImOf(g, disk))
  {
    assert |DecodeHead(disk[g.start])| == 0;
  }

  // ---------------------------------------------------------- the buffers

  /** What the log's code may rely on about buffer i: it is unused or for the disk; an idle one and
      one of a log block agree with the disk; nobody else holds a log block. */
  predicate TidyAt(g: Geometry, dev: nat, bufs: seq<Buf>, disk: seq<Block>, i: nat) {
    i < |bufs| ==>
      && (bufs[i].dev == dev || (bufs[i].dev == 0 && !bufs[i].valid))
      && (bufs[i].valid && (bufs[i].refcnt == 0 || g.InLog(bufs[i].blockno)) ==>
            bufs[i].data == BufferCache.DiskAt(disk, bufs[i].blockno))
      && (bufs[i].dev == dev && g.InLog(bufs[i].blockno) ==> !bufs[i].locked)
  }

  ghost predicate Tidy(g: Geometry, dev: nat, bufs: seq<Buf>, disk: seq<Block>) {
    forall i: nat {:trigger TidyAt(g, dev, bufs, disk, i)} :: TidyAt(g, dev, bufs, disk, i)
  }

  /** A new cache is tidy. */
  lemma NewTidy(g: Geometry, dev: nat, bufs: seq<Buf>, disk: seq<Block>)
    requires forall i :: 0 <= i < |bufs| ==> bufs[i] == BufferCache.Buf(false, 0, 0, 0, false, Zeros())
    ensures Tidy(g, dev, bufs, disk) && AllIdle(bufs)
  {
    forall i: nat
      ensures TidyAt(g, dev, bufs, disk, i)
    {
    }
  }

  /** A home block's buffer in use is no concern of the log's. */
  lemma HomeTidy(g: Geometry, dev: nat, bufs: seq<Buf>, disk: seq<Block>, k: nat, x: Buf)
    requires Tidy(g, dev, bufs, disk) && k < |bufs| && x.dev == dev && g.IsHome(x.blockno)
    requires x.refcnt == 0 && x.valid ==> x.data == BufferCache.DiskAt(disk, x.blockno)
    ensures Tidy(g, dev, bufs[k := x], disk)
  {
    var bufs' := bufs[k := x];
    forall i: nat
      ensures TidyAt(g, dev, bufs', disk, i)
    {
      assert TidyAt(g, dev, bufs, disk, i);
    }
  }

  /** Tidy buffers meet what bread asks for, and a log block reads as the disk has it. */
  lemma TidyReads(g: Geometry, dev: nat, bufs: seq<Buf>, disk: seq<Block>, n: nat)
    requires Tidy(g, dev, bufs, disk) && BufferCache.Unique(bufs) && dev != 0
    ensures BufferCache.CleanIdle(bufs, disk) && BufferCache.Only(bufs, dev)
    ensures g.InLog(n) ==>
      BufferCache.Unheld(bufs, dev, n) && BufferCache.Latest(bufs, disk, dev, n) == BufferCache.DiskAt(disk, n)
  {
    forall i: nat
      ensures BufferCache.CleanAt(bufs, disk, i) && BufferCache.OnlyAt(bufs, dev, i)
    {
      assert TidyAt(g, dev, bufs, disk, i);
    }
    if g.InLog(n) {
      forall i | BufferCache.IsFor(bufs, dev, n, i)
        ensures !bufs[i].locked && (bufs[i].valid ==> bufs[i].data == BufferCache.DiskAt(disk, n))
      {
        assert TidyAt(g, dev, bufs, disk, i);
      }
    }
  }

  /** A visit to block n through buffer k, all references given back: the buffer holds the block and
      the given bytes; it was the block's, or an idle one recycled. */
  ghost predicate Touch(bufs: seq<Buf>, bufs': seq<Buf>, dev: nat, n: nat, data: Block, k: nat) {
    && Visits(bufs, dev, n, k) && bufs' == bufs[k := BufferCache.Buf(true, dev, n, bufs[k].refcnt, false, data)]
  }

  /** Buffer k is the block's, or the block has none and k is idle. */
  ghost predicate Visits(bufs: seq<Buf>, dev: nat, n: nat, k: nat) {
    k < |bufs| && (BufferCache.IsFor(bufs, dev, n, k) || (BufferCache.Uncached(bufs, dev, n) && bufs[k].refcnt == 0))
  }

  /** References and locks elsewhere do not matter to a visit. */
  lemma VisitsSame(bufs: seq<Buf>, bufs': seq<Buf>, dev: nat, n: nat, k: nat, l: nat)
    requires Visits(bufs, dev, n, k) && l < |bufs| == |bufs'| && l != k
    requires bufs' == bufs[l := bufs[l].(refcnt := bufs'[l].refcnt, locked := bufs'[l].locked)]
    ensures Visits(bufs', dev, n, k)
  {
    assert forall i :: BufferCache.IsFor(bufs', dev, n, i) ==> BufferCache.IsFor(bufs, dev, n, i);
  }

  /** A visit that leaves block n on disk as in its buffer keeps the buffers tidy; r is the number
      of references left to the buffer. */
  lemma VisitTidy(g: Geometry, dev: nat, bufs: seq<Buf>, disk: seq<Block>, n: nat, data: Block, k: nat, r: nat,
                  bufs': seq<Buf>, disk': seq<Block>)
    requires Tidy(g, dev, bufs, disk) && BufferCache.Unique(bufs) && dev != 0 && n < |disk|
    requires
      && Visits(bufs, dev, n, k) && bufs' == bufs[k := BufferCache.Buf(true, dev, n, r, false, data)]
      && disk' == disk[n := data]
    ensures Tidy(g, dev, bufs', disk')
  {
    forall i: nat
      ensures TidyAt(g, dev, bufs', disk', i)
    {
      assert TidyAt(g, dev, bufs, disk, i) && BufferCache.Differ(bufs, i, k);
      assert BufferCache.Uncached(bufs, dev, n) ==> !BufferCache.IsFor(bufs, dev, n, i);
    }
  }

  /** The buffers once block n is held in buffer l and block b in buffer i. */
  ghost predicate HoldsBoth(bufs: seq<Buf>, bufs': seq<Buf>, dev: nat, n: nat, x: Block, l: nat, b: nat, i: nat) {
    && l != i && l < |bufs'| == |bufs| && i < |bufs'| && Visits(bufs, dev, n, l)
    && Visits(bufs[l := BufferCache.Buf(true, dev, n, bufs[l].refcnt, false, x)], dev, b, i)
    && bufs' == bufs[l := BufferCache.Buf(true, dev, n, bufs[l].refcnt + 1, true, x)]
                    [i := BufferCache.Buf(true, dev, b, bufs[i].refcnt + 1, true, bufs'[i].data)]
  }

  lemma MidUnique(bufs: seq<Buf>, bufs': seq<Buf>, dev: nat, n: nat, data: Block, k: nat)
    requires BufferCache.Unique(bufs) && Touch(bufs, bufs', dev, n, data, k)
    ensures BufferCache.Unique(bufs')
  {
    forall i: nat, j: nat
      ensures BufferCache.Differ(bufs', i, j)
    {
      assert BufferCache.Differ(bufs, i, j);
      assert BufferCache.Uncached(bufs, dev, n) ==>
        !BufferCache.IsFor(bufs, dev, n, i) && !BufferCache.IsFor(bufs, dev, n, j);
    }
  }

  /** A bread of block n would find no buffer. */
  ghost predicate Starved(bufs: seq<Buf>, dev: nat, n: nat) {
    BufferCache.Uncached(bufs, dev, n) && BufferCache.NoneSpare(bufs)
  }

  lemma TouchStarved(bufs: seq<Buf>, bufs': seq<Buf>, dev: nat, n: nat, data: Block, k: nat, m: nat)
    requires Touch(bufs, bufs', dev, n, data, k)
    ensures Starved(bufs', dev, m) <==> Starved(bufs, dev, m)
    ensures BufferCache.NoneSpare(bufs') <==> BufferCache.NoneSpare(bufs)
  {
    forall i
      ensures 0 <= i < |bufs| ==> bufs'[i].refcnt == bufs[i].refcnt
      ensures BufferCache.NoneSpare(bufs) ==>
        (BufferCache.IsFor(bufs', dev, m, i) <==> BufferCache.IsFor(bufs, dev, m, i))
    {
    }
  }

  /** So would one of log slot t. */
  ghost predicate SlotStarved(g: Geometry, bufs: seq<Buf>, dev: nat, t: nat) {
    Starved(bufs, dev, g.start + t + 1)
  }

  /** Some bread of a commit of n blocks would find no buffer. */
  ghost predicate NoBuffers(g: Geometry, bufs: seq<Buf>, dev: nat, n: nat) {
    Starved(bufs, dev, g.start) || exists t: nat :: t < n && SlotStarved(g, bufs, dev, t)
  }

  /** Which breads would find no buffer has not changed. */
  ghost predicate SameStarved(bufs: seq<Buf>, bufs': seq<Buf>, dev: nat) {
    forall m: nat {:trigger Starved(bufs', dev, m)} :: Starved(bufs', dev, m) <==> Starved(bufs, dev, m)
  }

  /** Every buffer is without references. */
  predicate AllIdle(bufs: seq<Buf>) { forall i :: 0 <= i < |bufs| ==> bufs[i].refcnt == 0 }

  // --------------------------------------------------------- logged blocks

  /** Block b's logged contents sit in a pinned buffer; they can differ only while somebody holds it. */
  predicate LoggedAt(bufs: seq<Buf>, pins: seq<nat>, dev: nat, cache: map<nat, Block>, place: map<nat, nat>, b: nat) {
    && b in cache && b in place && place[b] < |bufs| && place[b] < |pins|
    && BufferCache.IsFor(bufs, dev, b, place[b]) && pins[place[b]] > 0 && bufs[place[b]].valid
    && (bufs[place[b]].locked || bufs[place[b]].data == cache[b])
  }

  /** The listed blocks from the t-th on are logged. */
  ghost predicate Logged(bufs: seq<Buf>, pins: seq<nat>, dev: nat, cache: map<nat, Block>, place: map<nat, nat>,
                         lh: seq<nat>, t: nat) {
    forall j: nat {:trigger LoggedAt(bufs, pins, dev, cache, place, lh[j])} ::
      t <= j < |lh| ==> LoggedAt(bufs, pins, dev, cache, place, lh[j])
  }

  /** Any calls that respect references and pins leave logged contents where they are, as long as
      whoever gives a buffer back left in it what was logged. */
  lemma LoggedStays(bufs: seq<Buf>, pins: seq<nat>, waiting: seq<nat>, bufs': seq<Buf>, pins': seq<nat>, dev: nat,
                    cache: map<nat, Block>, place: map<nat, nat>, b: nat)
    requires LoggedAt(bufs, pins, dev, cache, place, b) && BufferCache.Counted(bufs, pins, waiting)
    requires BufferCache.Keeps(bufs, bufs') && |pins'| == |pins| && pins'[place[b]] > 0
    requires bufs[place[b]].locked && !bufs'[place[b]].locked ==> bufs[place[b]].data == cache[b]
    ensures LoggedAt(bufs', pins', dev, cache, place, b)
  {
    assert BufferCache.CountAt(bufs, pins, waiting, place[b]) && BufferCache.KeptAt(bufs, bufs', place[b]);
  }

  /** A visit to a block that is not listed. */
  lemma TouchLogged(bufs: seq<Buf>, pins: seq<nat>, waiting: seq<nat>, bufs': seq<Buf>, dev: nat, n: nat, data: Block,
                    k: nat, cache: map<nat, Block>, place: map<nat, nat>, lh: seq<nat>, t: nat)
    requires Logged(bufs, pins, dev, cache, place, lh, t) && BufferCache.Counted(bufs, pins, waiting)
    requires Touch(bufs, bufs', dev, n, data, k) && n !in lh
    ensures Logged(bufs', pins, dev, cache, place, lh, t)
  {
    forall j: nat | t <= j < |lh|
      ensures LoggedAt(bufs', pins, dev, cache, place, lh[j])
    {
      assert LoggedAt(bufs, pins, dev, cache, place, lh[j]);
      assert BufferCache.CountAt(bufs, pins, waiting, place[lh[j]]);
    }
  }

  /** log_write of block b, held in buffer k: listed and pinned there if it was not. */
  lemma LogMore(dev: nat, bufs: seq<Buf>, pins: seq<nat>, cache: map<nat, Block>, place: map<nat, nat>, lh: seq<nat>,
                b: nat, k: nat, bufs': seq<Buf>, pins': seq<nat>, cache': map<nat, Block>, place': map<nat, nat>,
                lh': seq<nat>)
    requires Logged(bufs, pins, dev, cache, place, lh, 0) && BufferCache.Unique(bufs) && dev != 0 && Distinct(lh)
    requires k < |bufs| == |pins| && BufferCache.IsFor(bufs, dev, b, k) && bufs[k].valid && bufs[k].locked
    requires lh' == LogRuns.AddEntry(lh, b) && cache' == cache[b := bufs[k].data] && place' == place[b := k]
    requires |bufs'| == |bufs| && bufs' == bufs[k := bufs[k].(refcnt := bufs'[k].refcnt)]
    requires pins' == if b in lh then pins else pins[k := pins[k] + 1]
    ensures Logged(bufs', pins', dev, cache', place', lh', 0) && Distinct(lh')
  {
    if b in lh {
      var i: nat :| i < |lh| && lh[i] == b;
      assert LoggedAt(bufs, pins, dev, cache, place, lh[i]) && BufferCache.Differ(bufs, place[b], k);
    }
    forall j: nat | j < |lh'|
      ensures LoggedAt(bufs', pins', dev, cache', place', lh'[j])
    {
      if j < |lh| {
        assert LoggedAt(bufs, pins, dev, cache, place, lh[j]) && BufferCache.Differ(bufs, place[lh[j]], k);
      }
    }
  }

  /** More references to a held buffer change nothing the log relies on. */
  lemma PinTidy(g: Geometry, dev: nat, bufs: seq<Buf>, disk: seq<Block>, k: nat, r: nat)
    requires Tidy(g, dev, bufs, disk) && k < |bufs| && bufs[k].refcnt > 0 && r > 0
    ensures Tidy(g, dev, bufs[k := bufs[k].(refcnt := r)], disk)
  {
    var bufs' := bufs[k := bufs[k].(refcnt := r)];
    forall i: nat
      ensures TidyAt(g, dev, bufs', disk, i)
    {
      assert TidyAt(g, dev, bufs, disk, i);
    }
  }

  /** Nobody holds a listed block from the t-th on. */
  ghost predicate Quiet(bufs: seq<Buf>, dev: nat, lh: seq<nat>, t: nat) {
    forall j: nat {:trigger QuietAt(bufs, dev, lh, j)} :: t <= j ==> QuietAt(bufs, dev, lh, j)
  }

  predicate QuietAt(bufs: seq<Buf>, dev: nat, lh: seq<nat>, j: nat) {
    j < |lh| ==> BufferCache.Unheld(bufs, dev, lh[j])
  }

  /** Everything a visit to a log block keeps, once the block is on disk as in its buffer. */
  lemma TouchKeeps(g: Geometry, dev: nat, bufs: seq<Buf>, disk: seq<Block>, pins: seq<nat>, waiting: seq<nat>,
                   cache: map<nat, Block>, place: map<nat, nat>, lh: seq<nat>, t: nat, n: nat, data: Block, k: nat,
                   bufs': seq<Buf>, disk': seq<Block>)
    requires dev != 0 && Fitted(g, disk) && Tidy(g, dev, bufs, disk)
    requires BufferCache.Unique(bufs) && BufferCache.Counted(bufs, pins, waiting)
    requires Logged(bufs, pins, dev, cache, place, lh, t) && Quiet(bufs, dev, lh, t) && g.InLog(n) && n !in lh
    requires (n == g.start ==> GetWord(data, 0) <= LOGSIZE)
    requires Touch(bufs, bufs', dev, n, data, k) && disk' == disk[n := data]
    ensures
      && Fitted(g, disk') && Fits(ImOf(g, disk), Classify(g, n, data))
      && ImOf(g, disk') == Put(ImOf(g, disk), Classify(g, n, data))
    ensures Tidy(g, dev, bufs', disk') && Logged(bufs', pins, dev, cache, place, lh, t) && Quiet(bufs', dev, lh, t)
    ensures SameStarved(bufs, bufs', dev)
  {
    WriteIs(g, disk, n, data, disk');
    VisitTidy(g, dev, bufs, disk, n, data, k, bufs[k].refcnt, bufs', disk');
    TouchLogged(bufs, pins, waiting, bufs', dev, n, data, k, cache, place, lh, t);
    forall j: nat | t <= j
      ensures QuietAt(bufs', dev, lh, j)
    {
      assert QuietAt(bufs, dev, lh, j);
    }
    forall m: nat
      ensures Starved(bufs', dev, m) <==> Starved(bufs, dev, m)
    {
      TouchStarved(bufs, bufs', dev, n, data, k, m);
    }
  }

  /** Breads that had a buffer still have one. */
  ghost predicate NoneStarved(bufs: seq<Buf>, bufs': seq<Buf>, dev: nat) {
    forall m: nat {:trigger Starved(bufs', dev, m)} :: Starved(bufs', dev, m) ==> Starved(bufs, dev, m)
  }

  /** Installing the t-th listed block from its pinned buffer k and unpinning it. */
  lemma InstallKeeps(g: Geometry, dev: nat, bufs: seq<Buf>, disk: seq<Block>, pins: seq<nat>, cache: map<nat, Block>,
                     place: map<nat, nat>, lh: seq<nat>, t: nat, data: Block, k: nat, bufs': seq<Buf>,
                     disk': seq<Block>, pins': seq<nat>)
    requires dev != 0 && Fitted(g, disk) && Tidy(g, dev, bufs, disk) && BufferCache.Unique(bufs)
    requires Logged(bufs, pins, dev, cache, place, lh, t) && Quiet(bufs, dev, lh, t) && Distinct(lh)
    requires
      && t < |lh| && lh[t] in place && place[lh[t]] == k < |bufs| && g.IsHome(lh[t])
      && BufferCache.IsFor(bufs, dev, lh[t], k)
    requires k < |pins| && pins[k] > 0 && bufs[k].refcnt > 0 && pins' == pins[k := pins[k] - 1]
    requires
      && bufs' == bufs[k := BufferCache.Buf(true, dev, lh[t], bufs[k].refcnt - 1, false, data)]
      && disk' == disk[lh[t] := data]
    ensures Fitted(g, disk') && ImOf(g, disk') == ImOf(g, disk).(home := ImOf(g, disk).home[lh[t] := data])
    ensures
      && Tidy(g, dev, bufs', disk') && Logged(bufs', pins', dev, cache, place, lh, t + 1)
      && Quiet(bufs', dev, lh, t + 1)
    ensures NoneStarved(bufs, bufs', dev)
  {
    WriteIs(g, disk, lh[t], data, disk');
    VisitTidy(g, dev, bufs, disk, lh[t], data, k, bufs[k].refcnt - 1, bufs', disk');
    forall j: nat | t + 1 <= j < |lh|
      ensures LoggedAt(bufs', pins', dev, cache, place, lh[j])
    {
      assert LoggedAt(bufs, pins, dev, cache, place, lh[j]);
    }
    forall j: nat | t + 1 <= j
      ensures QuietAt(bufs', dev, lh, j)
    {
      assert QuietAt(bufs, dev, lh, j);
    }
    forall m: nat | Starved(bufs', dev, m)
      ensures Starved(bufs, dev, m)
    {
      assert forall i :: BufferCache.IsFor(bufs, dev, m, i) ==> BufferCache.IsFor(bufs', dev, m, i);
      assert forall i :: 0 <= i < |bufs| ==> bufs[i].refcnt >= bufs'[i].refcnt;
    }
  }

  /** With every buffer idle nobody holds anything but the buffer just fetched. */
  lemma IdleUnheld(bufs: seq<Buf>, pins: seq<nat>, waiting: seq<nat>, dev: nat, n: nat, l: nat, bufs': seq<Buf>, b: nat)
    requires BufferCache.Counted(bufs, pins, waiting) && b != n && l < |bufs| == |bufs'|
    requires (forall i :: 0 <= i < |bufs| && i != l ==> bufs'[i] == bufs[i]) && bufs'[l].blockno == n
    ensures AllIdle(bufs) ==> BufferCache.Unheld(bufs', dev, b)
  {
    if AllIdle(bufs) {
      forall i: nat | i < |bufs'| && BufferCache.IsFor(bufs', dev, b, i)
        ensures !bufs'[i].locked
      {
        assert BufferCache.CountAt(bufs, pins, waiting, i);
      }
    }
  }

  lemma IdleQuiet(bufs: seq<Buf>, pins: seq<nat>, waiting: seq<nat>, dev: nat, lh: seq<nat>, j: nat)
    requires BufferCache.Counted(bufs, pins, waiting) && AllIdle(bufs)
    ensures QuietAt(bufs, dev, lh, j)
  {
    forall i: nat | i < |bufs|
      ensures !bufs[i].locked
    {
      assert BufferCache.CountAt(bufs, pins, waiting, i);
    }
  }

  /** Installing a block during recovery, when every buffer is idle. */
  lemma RecoverKeeps(g: Geometry, dev: nat, bufs: seq<Buf>, disk: seq<Block>, b: nat, data: Block, k: nat,
                     bufs': seq<Buf>, disk': seq<Block>)
    requires
      && dev != 0 && Fitted(g, disk) && Tidy(g, dev, bufs, disk) && BufferCache.Unique(bufs) && AllIdle(bufs)
      && g.IsHome(b)
    requires Touch(bufs, bufs', dev, b, data, k) && disk' == disk[b := data]
    ensures Fitted(g, disk') && ImOf(g, disk') == ImOf(g, disk).(home := ImOf(g, disk).home[b := data])
    ensures Tidy(g, dev, bufs', disk') && AllIdle(bufs')
  {
    WriteIs(g, disk, b, data, disk');
    VisitTidy(g, dev, bufs, disk, b, data, k, bufs[k].refcnt, bufs', disk');
  }

  /** Block b's buffer loses a pin. */
  function UnpinOne(pins: seq<nat>, place: map<nat, nat>, b: nat): seq<nat> {
    if b in place && place[b] < |pins| && pins[place[b]] > 0 then pins[place[b] := pins[place[b]] - 1] else pins
  }

  /** The pins left once the first t listed blocks are unpinned. */
  function Unpinned(pins: seq<nat>, place: map<nat, nat>, lh: seq<nat>, t: nat): seq<nat>
    requires t <= |lh|
  {
    if t == 0 then pins else UnpinOne(Unpinned(pins, place, lh, t - 1), place, lh[t - 1])
  }

  /** Unpinning all listed blocks takes one pin from each of their buffers and from no other. */
  lemma {:induction false} UnpinnedAt(pins: seq<nat>, place: map<nat, nat>, lh: seq<nat>, t: nat, i: nat)
    requires t <= |lh| && i < |pins|
    requires forall j :: 0 <= j < t ==> lh[j] in place && place[lh[j]] < |pins| && pins[place[lh[j]]] > 0
    requires forall j, k :: 0 <= j < k < t ==> place[lh[j]] != place[lh[k]]
    ensures |Unpinned(pins, place, lh, t)| == |pins|
    ensures Unpinned(pins, place, lh, t)[i] == pins[i] - if exists j :: 0 <= j < t && place[lh[j]] == i then 1 else 0
  {
    if t > 0 {
      var b := lh[t - 1];
      UnpinnedAt(pins, place, lh, t - 1, i);
      UnpinnedAt(pins, place, lh, t - 1, place[b]);
    }
  }

  /** Distinct blocks have distinct buffers, so a full log leaves no buffer unpinned. */
  lemma FullLogStarves(bufs: seq<Buf>, pins: seq<nat>, waiting: seq<nat>, dev: nat, cache: map<nat, Block>,
                       place: map<nat, nat>, lh: seq<nat>, n: nat)
    requires Logged(bufs, pins, dev, cache, place, lh, 0) && BufferCache.Counted(bufs, pins, waiting)
    requires Distinct(lh) && |lh| == NBUF && n !in lh
    ensures Starved(bufs, dev, n)
  {
    forall j: nat | j < NBUF
      ensures lh[j] in place && place[lh[j]] < NBUF
    {
      assert LoggedAt(bufs, pins, dev, cache, place, lh[j]);
    }
    var at := seq(NBUF, j requires 0 <= j < NBUF => place[lh[j]]);
    forall i, j | 0 <= i < j < NBUF
      ensures at[i] != at[j]
    {
      assert LoggedAt(bufs, pins, dev, cache, place, lh[i]) && LoggedAt(bufs, pins, dev, cache, place, lh[j]);
    }
    forall i: nat | i < NBUF
      ensures bufs[i].refcnt > 0 && !BufferCache.IsFor(bufs, dev, n, i)
    {
      BufferCache.Pigeonhole(at, NBUF, i);
      var j: nat :| j < NBUF && at[j] == i;
      assert LoggedAt(bufs, pins, dev, cache, place, lh[j]) && BufferCache.CountAt(bufs, pins, waiting, i);
    }
  }
}
