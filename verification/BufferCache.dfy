/** The buffer cache: NBUF buffers on a doubly linked ring kept in order of last release. */
module BufferCache {
  import opened Blocks
  import opened Common

  const HEAD: nat := NBUF   // the list head's index; buffers are 0 .. NBUF - 1

  // ------------------------------------------------------------- the ring

  /** The ring written out from the head back to the head. */
  function Cycle(order: seq<nat>): seq<nat> { [HEAD] + order + [HEAD] }

  predicate Distinct(order: seq<nat>) {
    && (forall i :: 0 <= i < |order| ==> order[i] < NBUF)
    && (forall i, j :: 0 <= i < j < |order| ==> order[i] != order[j])
  }

  /** next and prev run along c. */
  predicate Along(next: seq<nat>, prev: seq<nat>, c: seq<nat>) {
    && |next| == |prev| == NBUF + 1
    && (forall i :: 0 <= i < |c| ==> c[i] <= NBUF)
    && (forall i,
        j {:trigger c[i], c[j]} :: 0 <= i < |c| && j == i + 1 < |c| ==> next[c[i]] == c[j] && prev[c[j]] == c[i])
  }

  predicate Ring(next: seq<nat>, prev: seq<nat>, order: seq<nat>) {
    Distinct(order) && Along(next, prev, Cycle(order))
  }

  function Without(order: seq<nat>, k: nat): seq<nat>
    requires k < |order|
  {
    order[..k] + order[k + 1..]
  }

  /** The neighbours of the k-th buffer. */
  function Before(order: seq<nat>, k: nat): nat
    requires k < |order|
  {
    if k == 0 then HEAD else order[k - 1]
  }

  function After(order: seq<nat>, k: nat): nat
    requires k < |order|
  {
    if k + 1 == |order| then HEAD else order[k + 1]
  }

  lemma Neighbours(next: seq<nat>, prev: seq<nat>, order: seq<nat>, k: nat)
    requires Ring(next, prev, order) && k < |order|
    ensures next[order[k]] == After(order, k) && prev[order[k]] == Before(order, k)
  {
    var c := Cycle(order);
    assert c[k + 1] == order[k] && c[k] == Before(order, k) && c[k + 2] == After(order, k);
  }

  lemma Ends(next: seq<nat>, prev: seq<nat>, order: seq<nat>)
    requires Ring(next, prev, order)
    ensures
      && next[HEAD] == (if order == [] then HEAD else order[0])
      && prev[HEAD] == (if order == [] then HEAD else order[|order| - 1])
  {
    var c := Cycle(order);
    var n := |order|;
    assert c[0] == HEAD && c[n + 1] == HEAD && c[1] == (if n == 0 then HEAD else order[0]);
    assert c[n] == if n == 0 then HEAD else order[n - 1];
  }

  /** Taking one buffer out of the ring. */
  lemma Unlink(next: seq<nat>, prev: seq<nat>, order: seq<nat>, k: nat, next': seq<nat>, prev': seq<nat>)
    requires Ring(next, prev, order) && k < |order|
    requires next' == next[Before(order, k) := After(order, k)] && prev' == prev[After(order, k) := Before(order, k)]
    ensures Ring(next', prev', Without(order, k))
  {
    var c, d := Cycle(order), Cycle(Without(order, k));
    forall i, j | 0 <= i < |d| && j == i + 1 < |d|
      ensures next'[d[i]] == d[j] && prev'[d[j]] == d[i]
    {
      UnlinkAt(next, prev, order, k, i, j);
    }
  }

  lemma UnlinkAt(next: seq<nat>, prev: seq<nat>, order: seq<nat>, k: nat, i: int, j: int)
    requires Ring(next, prev, order) && k < |order| && 0 <= i <= |order| - 1 && j == i + 1
    ensures var d := Cycle(Without(order, k));
            && next[Before(order, k) := After(order, k)][d[i]] == d[j]
            && prev[After(order, k) := Before(order, k)][d[j]] == d[i]
  {
    var c, d := Cycle(order), Cycle(Without(order, k));
    assert c[k] == Before(order, k) && c[k + 1] == order[k] && c[k + 2] == After(order, k);
    if j <= k {
      assert d[i] == c[i] && d[j] == c[j];
      Apart(order, j, k + 2);
      Apart(order, i, k);
    } else if i == k {
      assert d[i] == c[k] && d[j] == c[k + 2];
    } else {
      assert d[i] == c[i + 1] && d[j] == c[j + 1];
      Apart(order, k, i + 1);
      Apart(order, k + 2, j + 1);
    }
  }

  /** Two places of the cycle hold the same buffer only at its two ends. */
  lemma Apart(order: seq<nat>, i: nat, j: nat)
    requires Distinct(order) && i < j < |order| + 2
    ensures Cycle(order)[i] == Cycle(order)[j] ==> i == 0 && j == |order| + 1
  {
  }

  /** Putting a buffer in right after the head. */
  lemma LinkFront(next: seq<nat>, prev: seq<nat>, order: seq<nat>, b: nat, next': seq<nat>, prev': seq<nat>)
    requires Ring(next, prev, order) && b < NBUF && b !in order
    requires
      && next' == next[b := next[HEAD]][HEAD := b] && next[HEAD] <= NBUF && prev' == prev[b := HEAD][next[HEAD] := b]
    ensures Ring(next', prev', [b] + order)
  {
    Ends(next, prev, order);
    var c, d := Cycle(order), Cycle([b] + order);
    forall i, j | 0 <= i < |d| && j == i + 1 < |d|
      ensures next'[d[i]] == d[j] && prev'[d[j]] == d[i]
    {
      assert d[0] == HEAD && d[1] == b && forall k :: 2 <= k < |d| ==> d[k] == c[k - 1];
      if i >= 2 {
        assert d[i] == c[i - 1] && d[j] == c[j - 1];
        Apart(order, 0, i - 1);
        Apart(order, 1, j - 1);
      }
    }
  }

  /** The order after the k-th buffer moved to the front. */
  function ToFront(order: seq<nat>, k: nat): (r: seq<nat>)
    requires k < |order|
    ensures |r| == |order| && r[0] == order[k]
  {
    [order[k]] + Without(order, k)
  }

  lemma ToFrontPermutes(order: seq<nat>, k: nat)
    requires k < |order|
    ensures multiset(ToFront(order, k)) == multiset(order)
  {
    assert order == order[..k] + [order[k]] + order[k + 1..];
  }

  /** The first half of brelse's relinking, as its statements do it. */
  lemma Taken(next: seq<nat>, prev: seq<nat>, order: seq<nat>, k: nat, next': seq<nat>, prev': seq<nat>)
    requires Ring(next, prev, order) && k < |order| && next[order[k]] <= NBUF && prev[order[k]] <= NBUF
    requires
      && prev' == prev[next[order[k]] := prev[order[k]]] && prev'[order[k]] <= NBUF
      && next' == next[prev'[order[k]] := next[order[k]]]
    ensures Ring(next', prev', Without(order, k)) && next'[HEAD] <= NBUF
  {
    Neighbours(next, prev, order, k);
    Unlink(next, prev, order, k, next', prev');
    Ends(next', prev', Without(order, k));
  }

  /** The second half. */
  lemma ToFrontRing(next: seq<nat>, prev: seq<nat>, order: seq<nat>, k: nat, next': seq<nat>, prev': seq<nat>)
    requires Distinct(order) && k < |order| && Ring(next, prev, Without(order, k)) && next[HEAD] <= NBUF
    requires
      && next' == next[order[k] := next[HEAD]][HEAD := order[k]]
      && prev' == prev[order[k] := HEAD][next[HEAD] := order[k]]
    ensures Ring(next', prev', ToFront(order, k))
  {
    var rest := Without(order, k);
    assert forall i :: 0 <= i < |rest| ==> rest[i] == order[if i < k then i else i + 1];
    LinkFront(next, prev, rest, order[k], next', prev');
  }

  // --------------------------------------------------------- the contents

  datatype Buf = Buf(valid: bool, dev: nat, blockno: nat, refcnt: nat, locked: bool, data: Block)

  /** Buffer i is the one for this block. */
  predicate IsFor(bufs: seq<Buf>, dev: nat, blockno: nat, i: int) {
    0 <= i < |bufs| && bufs[i].dev == dev && bufs[i].blockno == blockno
  }

  /** No two buffers are for the same block of a real device; device 0 is what binit leaves in unused buffers. */
  ghost predicate Unique(bufs: seq<Buf>) {
    forall i: nat, j: nat {:trigger Differ(bufs, i, j)} :: Differ(bufs, i, j)
  }

  predicate Differ(bufs: seq<Buf>, i: nat, j: nat) {
    i < |bufs| && j < |bufs| && i != j && bufs[i].dev == bufs[j].dev != 0 ==> bufs[i].blockno != bufs[j].blockno
  }

  function DiskAt(disk: seq<Block>, n: nat): Block { if n < |disk| then disk[n] else Zeros() }

  /** The latest contents of a block: the valid buffer's, else the disk's. */
  ghost function Latest(bufs: seq<Buf>, disk: seq<Block>, dev: nat, n: nat): Block {
    if exists i :: IsFor(bufs, dev, n, i) && bufs[i].valid then
      var i :| IsFor(bufs, dev, n, i) && bufs[i].valid;
      bufs[i].data
    else DiskAt(disk, n)
  }

  /** A buffer nobody holds agrees with the disk. */
  ghost predicate CleanIdle(bufs: seq<Buf>, disk: seq<Block>) {
    forall i: nat {:trigger CleanAt(bufs, disk, i)} :: CleanAt(bufs, disk, i)
  }

  predicate CleanAt(bufs: seq<Buf>, disk: seq<Block>, i: nat) {
    i < |bufs| && bufs[i].valid && bufs[i].refcnt == 0 ==> bufs[i].data == DiskAt(disk, bufs[i].blockno)
  }

  lemma LatestIs(bufs: seq<Buf>, disk: seq<Block>, dev: nat, n: nat, i: int)
    requires Unique(bufs) && dev != 0 && IsFor(bufs, dev, n, i)
    ensures Latest(bufs, disk, dev, n) == if bufs[i].valid then bufs[i].data else DiskAt(disk, n)
  {
    assert forall j: nat :: Differ(bufs, i, j) && IsFor(bufs, dev, n, j) ==> j == i;
  }

  ghost predicate SameLatest(bufs: seq<Buf>, disk: seq<Block>, bufs': seq<Buf>, disk': seq<Block>) {
    forall d: nat, n: nat {:trigger Latest(bufs', disk', d, n)} ::
      d != 0 ==> Latest(bufs', disk', d, n) == Latest(bufs, disk, d, n)
  }

  /** Changing one buffer in a way its own block cannot tell changes no block's latest contents. */
  lemma OneBuffer(bufs: seq<Buf>, disk: seq<Block>, b: nat, x: Buf)
    requires Unique(bufs) && b < |bufs| && x.dev == bufs[b].dev && x.blockno == bufs[b].blockno
    requires (if x.valid then x.data else DiskAt(disk, x.blockno))
      == if bufs[b].valid then bufs[b].data else DiskAt(disk, x.blockno)
    ensures Unique(bufs[b := x]) && SameLatest(bufs, disk, bufs[b := x], disk)
  {
    var bufs' := bufs[b := x];
    forall i: nat, j: nat
      ensures Differ(bufs', i, j)
    {
      assert Differ(bufs, i, j);
    }
    forall d: nat, n: nat | d != 0
      ensures Latest(bufs', disk, d, n) == Latest(bufs, disk, d, n)
    {
      if i :| IsFor(bufs, d, n, i) {
        assert IsFor(bufs', d, n, i);
        LatestIs(bufs, disk, d, n, i);
        LatestIs(bufs', disk, d, n, i);
      } else {
        assert forall i :: IsFor(bufs', d, n, i) ==> IsFor(bufs, d, n, i);
      }
    }
  }

  /** Recycling an idle, clean buffer for a block that has none changes no block's latest contents. */
  lemma Recycled(bufs: seq<Buf>, disk: seq<Block>, b: nat, x: Buf)
    requires Unique(bufs) && b < |bufs| && !x.valid && x.dev != 0
    requires forall i :: !IsFor(bufs, x.dev, x.blockno, i)
    ensures Unique(bufs[b := x])
    ensures (bufs[b].valid ==> bufs[b].data == DiskAt(disk, bufs[b].blockno)) ==>
      SameLatest(bufs, disk, bufs[b := x], disk)
  {
    var bufs' := bufs[b := x];
    forall i: nat, j: nat
      ensures Differ(bufs', i, j)
    {
      assert Differ(bufs, i, j) && !IsFor(bufs, x.dev, x.blockno, i) && !IsFor(bufs, x.dev, x.blockno, j);
    }
    if bufs[b].valid ==> bufs[b].data == DiskAt(disk, bufs[b].blockno) {
      forall d: nat, n: nat | d != 0
        ensures Latest(bufs', disk, d, n) == Latest(bufs, disk, d, n)
      {
        if i :| IsFor(bufs, d, n, i) {
          LatestIs(bufs, disk, d, n, i);
          if i != b {
            assert IsFor(bufs', d, n, i);
            LatestIs(bufs', disk, d, n, i);
          } else {
            assert forall k: nat :: Differ(bufs, b, k) && IsFor(bufs', d, n, k) ==> k == b;
          }
        } else {
          assert forall k :: IsFor(bufs', d, n, k) ==> k == b || IsFor(bufs, d, n, k);
        }
      }
    }
  }

  // ------------------------------------------------- references keep buffers

  /** Still the same block, and the same bytes if they were valid. */
  predicate Stays(x: Buf, y: Buf) {
    y.dev == x.dev && y.blockno == x.blockno && (x.valid ==> y.valid && y.data == x.data)
  }

  predicate KeptAt(bufs: seq<Buf>, bufs': seq<Buf>, i: nat) {
    i < |bufs| && i < |bufs'| && bufs[i].refcnt > 0 ==> Stays(bufs[i], bufs'[i])
  }

  /** No buffer with a reference was recycled or changed. */
  ghost predicate Keeps(bufs: seq<Buf>, bufs': seq<Buf>) {
    |bufs'| == |bufs| && forall i: nat {:trigger KeptAt(bufs, bufs', i)} :: KeptAt(bufs, bufs', i)
  }

  /** What one call did to the buffers: a store by a buffer's holder, or anything else. */
  datatype Event = Stored(b: nat, d: Block) | Other

  ghost predicate Happens(bufs: seq<Buf>, e: Event, bufs': seq<Buf>) {
    match e
    case Stored(b, d) => b < |bufs| && bufs' == bufs[b := bufs[b].(data := d)]
    case Other => Keeps(bufs, bufs')
  }

  /** The bytes last stored in buffer b, or those it had at first. */
  function LastStored(events: seq<Event>, b: nat, first: Block): Block {
    if events == [] then first
    else
      var e := events[|events| - 1];
      if e.Stored? && e.b == b then e.d else LastStored(events[..|events| - 1], b, first)
  }

  /** A referenced buffer is not recycled: through any sequence of calls during which buffer b always
      has a reference, for example a pin, it stays the buffer of its block, stays valid, and holds
      the bytes last stored in it. */
  lemma {:induction false} ReferencedThroughout(states: seq<seq<Buf>>, events: seq<Event>, b: nat, k: nat)
    requires |states| == |events| + 1 && k <= |events|
    requires forall i :: 0 <= i < |events| ==> Happens(states[i], events[i], states[i + 1])
    requires forall i :: 0 <= i <= |events| ==> b < |states[i]| && states[i][b].refcnt > 0
    requires states[0][b].valid
    ensures states[k][b].dev == states[0][b].dev && states[k][b].blockno == states[0][b].blockno && states[k][b].valid
    ensures states[k][b].data == LastStored(events[..k], b, states[0][b].data)
  {
    if k > 0 {
      ReferencedThroughout(states, events, b, k - 1);
      assert Happens(states[k - 1], events[k - 1], states[k]);
      assert events[..k][..k - 1] == events[..k - 1];
      assert events[k - 1].Other? ==> KeptAt(states[k - 1], states[k], b);
    }
  }

  // ------------------------------------------------------ one disk device

  /** Every buffer is unused or for this device. */
  ghost predicate Only(bufs: seq<Buf>, dev: nat) {
    forall i: nat {:trigger OnlyAt(bufs, dev, i)} :: OnlyAt(bufs, dev, i)
  }

  predicate OnlyAt(bufs: seq<Buf>, dev: nat, i: nat) {
    i < |bufs| ==> bufs[i].dev == dev || (bufs[i].dev == 0 && !bufs[i].valid)
  }

  /** The block has no buffer. */
  ghost predicate Uncached(bufs: seq<Buf>, dev: nat, n: nat) { forall i :: !IsFor(bufs, dev, n, i) }

  /** Every buffer has a reference. */
  predicate NoneSpare(bufs: seq<Buf>) { forall i :: 0 <= i < |bufs| ==> bufs[i].refcnt > 0 }

  /** Nobody holds the block's buffer. */
  predicate Unheld(bufs: seq<Buf>, dev: nat, n: nat) {
    forall i :: 0 <= i < |bufs| && IsFor(bufs, dev, n, i) ==> !bufs[i].locked
  }

  /** What changing buffer b to x does to the invariants that speak of one buffer at a time. */
  lemma OneChange(bufs: seq<Buf>, disk: seq<Block>, b: nat, x: Buf, bufs': seq<Buf>)
    requires b < |bufs| && bufs' == bufs[b := x]
    ensures (bufs[b].refcnt > 0 ==> Stays(bufs[b], x)) ==> Keeps(bufs, bufs')
    ensures CleanIdle(bufs, disk) ==> (CleanIdle(bufs', disk) <==> CleanAt(bufs', disk, b))
    ensures forall dev: nat :: Only(bufs, dev) && (x.dev == dev || (x.dev == 0 && !x.valid)) ==> Only(bufs', dev)
  {
    if bufs[b].refcnt > 0 ==> Stays(bufs[b], x) {
      forall i: nat
        ensures KeptAt(bufs, bufs', i)
      {
      }
    }
    if CleanIdle(bufs, disk) && CleanAt(bufs', disk, b) {
      forall i: nat
        ensures CleanAt(bufs', disk, i)
      {
        assert CleanAt(bufs, disk, i);
      }
    }
    forall dev: nat | Only(bufs, dev) && (x.dev == dev || (x.dev == 0 && !x.valid))
      ensures Only(bufs', dev)
    {
      forall i: nat
        ensures OnlyAt(bufs', dev, i)
      {
        assert OnlyAt(bufs, dev, i);
      }
    }
  }

  /** Most recently released first. */
  predicate ByRelease(order: seq<nat>, stamp: seq<nat>) {
    && (forall i :: 0 <= i < |order| ==> order[i] < |stamp|)
    && (forall i, j :: 0 <= i < j < |order| ==> stamp[order[i]] > stamp[order[j]])
  }

  /** Every reference is a pin, a process on its way to the lock, or the lock's holder. */
  ghost predicate Counted(bufs: seq<Buf>, pins: seq<nat>, waiting: seq<nat>) {
    && |bufs| == |pins| == |waiting| == NBUF
    && forall i: nat {:trigger CountAt(bufs, pins, waiting, i)} :: CountAt(bufs, pins, waiting, i)
  }

  predicate CountAt(bufs: seq<Buf>, pins: seq<nat>, waiting: seq<nat>, i: nat) {
    i < |bufs| && i < |pins| && i < |waiting| ==>
      bufs[i].refcnt == pins[i] + waiting[i] + if bufs[i].locked then 1 else 0
  }

  /** Changing one buffer and its counts. */
  lemma CountOne(bufs: seq<Buf>, pins: seq<nat>, waiting: seq<nat>, bufs': seq<Buf>, pins': seq<nat>,
                 waiting': seq<nat>, b: nat)
    requires Counted(bufs, pins, waiting) && b < NBUF && |bufs'| == |pins'| == |waiting'| == NBUF
    requires bufs' == bufs[b := bufs'[b]] && pins' == pins[b := pins'[b]] && waiting' == waiting[b := waiting'[b]]
    requires bufs'[b].refcnt == pins'[b] + waiting'[b] + if bufs'[b].locked then 1 else 0
    ensures Counted(bufs', pins', waiting')
  {
    forall i: nat
      ensures CountAt(bufs', pins', waiting', i)
    {
      assert CountAt(bufs, pins, waiting, i);
    }
  }

  /** The ring with the times of release it is sorted by. */
  ghost predicate Sorted(next: seq<nat>, prev: seq<nat>, order: seq<nat>, stamp: seq<nat>, clock: nat) {
    && Ring(next, prev, order) && |order| == NBUF
    && |stamp| == NBUF && ByRelease(order, stamp) && forall i :: 0 <= i < NBUF ==> stamp[i] <= clock
  }

  datatype Part = Links | Counts | Blocks

  /** One part of the cache's invariant. */
  ghost predicate Holds(next: seq<nat>, prev: seq<nat>, order: seq<nat>, stamp: seq<nat>, clock: nat, bufs: seq<Buf>,
                        pins: seq<nat>, waiting: seq<nat>, part: Part) {
    match part
    case Links => Sorted(next, prev, order, stamp, clock)
    case Counts => Counted(bufs, pins, waiting)
    case Blocks => Unique(bufs)
  }

  class Cache {
    var next: seq<nat>
    var prev: seq<nat>
    var bufs: seq<Buf>
    var disk: seq<Block>
    var panicked: bool
    ghost var order: seq<nat>     // buffers from head.next to head.prev
    ghost var stamp: seq<nat>     // when each buffer was last released
    ghost var clock: nat
    ghost var pins: seq<nat>
    ghost var waiting: seq<nat>

    ghost predicate Valid()
      reads this
    {
      && |bufs| == |pins| == |waiting| == |stamp| == |order| == NBUF && !panicked
      && forall part: Part {:trigger Holds(next, prev, order, stamp, clock, bufs, pins, waiting, part)} ::
           Holds(next, prev, order, stamp, clock, bufs, pins, waiting, part)
    }

    lemma Facts()
      requires Valid()
      ensures Sorted(next, prev, order, stamp, clock) && Counted(bufs, pins, waiting) && Unique(bufs) && !panicked
    {
      assert Holds(next, prev, order, stamp, clock, bufs, pins, waiting, Links);
      assert Holds(next, prev, order, stamp, clock, bufs, pins, waiting, Counts);
      assert Holds(next, prev, order, stamp, clock, bufs, pins, waiting, Blocks);
    }

    /** binit: link every buffer in at the front, each empty and for device 0. */
    constructor (disk: seq<Block>)
      ensures Valid() && this.disk == disk && CleanIdle(bufs, disk)
      ensures forall i :: 0 <= i < NBUF ==> bufs[i] == Buf(false, 0, 0, 0, false, Zeros())
    {
      this.disk := disk;
      panicked := false;
      bufs := seq(NBUF, _ => Buf(false, 0, 0, 0, false, Zeros()));
      pins, waiting := seq(NBUF, _ => 0), seq(NBUF, _ => 0);
      stamp, clock := seq(NBUF, i => i), NBUF;
      next, prev := seq(NBUF + 1, _ => HEAD), seq(NBUF + 1, _ => HEAD);
      order := [];
      new;
      LinkAll();
    }

    method LinkAll()
      requires Ring(next, prev, []) && order == []
      modifies this`next, this`prev, this`order
      ensures Ring(next, prev, order) && |order| == NBUF && forall i :: 0 <= i < NBUF ==> order[i] == NBUF - 1 - i
    {
      var b := 0;
      while b < NBUF
        invariant b <= NBUF && |order| == b && Ring(next, prev, order)
        invariant forall i :: 0 <= i < b ==> order[i] == b - 1 - i
      {
        Ends(next, prev, order);
        ghost var n0, p0 := next, prev;
        next := next[b := next[HEAD]];
        prev := prev[b := HEAD];
        prev := prev[next[HEAD] := b];
        next := next[HEAD := b];
        LinkFront(n0, p0, order, b, next, prev);
        order := [b] + order;
        b := b + 1;
      }
    }

    /** The forward walk: the buffer for the block, or the head. */
    method FindCached(dev: nat, blockno: nat) returns (b: nat)
      requires Valid()
      ensures b <= NBUF && (b < NBUF ==> IsFor(bufs, dev, blockno, b))
      ensures b == HEAD ==> forall i :: !IsFor(bufs, dev, blockno, i)
    {
      Facts();
      Ends(next, prev, order);
      Covers(order);
      b := next[HEAD];
      ghost var k := 0;
      while b != HEAD
        invariant 0 <= k <= NBUF && b == if k == NBUF then HEAD else order[k]
        invariant forall i :: 0 <= i < k ==> !IsFor(bufs, dev, blockno, order[i])
        decreases NBUF - k
      {
        if bufs[b].dev == dev && bufs[b].blockno == blockno {
          return;
        }
        Neighbours(next, prev, order, k);
        b := next[b];
        k := k + 1;
      }
      forall i
        ensures !IsFor(bufs, dev, blockno, i)
      {
        if 0 <= i < NBUF {
          assert i in order;
        }
      }
    }

    /** The backward walk: the least recently released buffer without references, or the head. */
    method FindIdle() returns (b: nat)
      requires Valid()
      ensures b <= NBUF
      ensures b < NBUF ==>
        bufs[b].refcnt == 0 && forall i :: 0 <= i < NBUF && bufs[i].refcnt == 0 ==> stamp[b] <= stamp[i]
      ensures b == HEAD ==> forall i :: 0 <= i < NBUF ==> bufs[i].refcnt > 0
    {
      Facts();
      Ends(next, prev, order);
      Covers(order);
      b := prev[HEAD];
      ghost var k := NBUF;
      while b != HEAD
        invariant 0 <= k <= NBUF && b == if k == 0 then HEAD else order[k - 1]
        invariant forall i :: k <= i < NBUF ==> bufs[order[i]].refcnt > 0
        decreases k
      {
        if bufs[b].refcnt == 0 {
          forall i | 0 <= i < NBUF && bufs[i].refcnt == 0
            ensures stamp[b] <= stamp[i]
          {
            assert i in order;
          }
          return;
        }
        Neighbours(next, prev, order, k - 1);
        b := prev[b];
        k := k - 1;
      }
      forall i | 0 <= i < NBUF
        ensures bufs[i].refcnt > 0
      {
        assert i in order;
      }
    }

    /** The part of bget under the cache lock: a reference to the block's buffer, recycling one if need be. */
    method Bget(dev: nat, blockno: nat) returns (b: nat)
      requires Valid() && dev != 0
      modifies this`bufs, this`waiting, this`panicked
      ensures panicked <==> Uncached(old(bufs), dev, blockno) && NoneSpare(old(bufs))
      ensures panicked ==> bufs == old(bufs)
      ensures !panicked ==> Valid() && IsFor(bufs, dev, blockno, b) && bufs[b].refcnt > 0
      ensures !panicked ==> bufs == old(bufs)[b := bufs[b]] && waiting == old(waiting)[b := old(waiting)[b] + 1]
      ensures !panicked && IsFor(old(bufs), dev, blockno, b) ==>
        bufs[b] == old(bufs)[b].(refcnt := old(bufs)[b].refcnt + 1)
      ensures !panicked && !IsFor(old(bufs), dev, blockno, b) ==>
                && Uncached(old(bufs), dev, blockno) && old(bufs)[b].refcnt == 0
                && bufs[b].refcnt == 1 && !bufs[b].valid && !bufs[b].locked
                && (forall i :: 0 <= i < NBUF && old(bufs)[i].refcnt == 0 ==> stamp[b] <= stamp[i])
      ensures Keeps(old(bufs), bufs) && (Only(old(bufs), dev) ==> Only(bufs, dev))
      ensures !panicked && CleanIdle(old(bufs), disk) ==>
        CleanIdle(bufs, disk) && SameLatest(old(bufs), disk, bufs, disk)
    {
      Facts();
      b := FindCached(dev, blockno);
      if b != HEAD {
        ghost var x := bufs[b].(refcnt := bufs[b].refcnt + 1);
        OneBuffer(bufs, disk, b, x);
        OneChange(bufs, disk, b, x, bufs[b := x]);
        assert CountAt(bufs, pins, waiting, b);
        bufs := bufs[b := bufs[b].(refcnt := bufs[b].refcnt + 1)];
        waiting := waiting[b := waiting[b] + 1];
        CountOne(old(bufs), pins, old(waiting), bufs, pins, waiting, b);
        return;
      }
      b := FindIdle();
      if b == HEAD {
        panicked := true;
        assert Keeps(old(bufs), bufs) by {
          forall i: nat
            ensures KeptAt(bufs, bufs, i)
          {
          }
        }
        return;
      }
      ghost var x := bufs[b].(dev := dev, blockno := blockno, valid := false, refcnt := 1);
      Recycled(bufs, disk, b, x);
      OneChange(bufs, disk, b, x, bufs[b := x]);
      assert CountAt(bufs, pins, waiting, b) && (CleanIdle(bufs, disk) ==> CleanAt(bufs, disk, b));
      bufs := bufs[b := bufs[b].(dev := dev, blockno := blockno, valid := false, refcnt := 1)];
      waiting := waiting[b := waiting[b] + 1];
      CountOne(old(bufs), pins, old(waiting), bufs, pins, waiting, b);
    }

    /** acquiresleep on the buffer, once it is free. */
    method Lock(b: nat)
      requires Valid() && b < NBUF && waiting[b] > 0 && !bufs[b].locked
      modifies this`bufs, this`waiting
      ensures Valid() && bufs == old(bufs)[b := old(bufs)[b].(locked := true)]
      ensures waiting == old(waiting)[b := old(waiting)[b] - 1] && Keeps(old(bufs), bufs)
      ensures CleanIdle(old(bufs), disk) ==> CleanIdle(bufs, disk)
      ensures SameLatest(old(bufs), disk, bufs, disk)
    {
      Facts();
      ghost var x := bufs[b].(locked := true);
      OneBuffer(bufs, disk, b, x);
      OneChange(bufs, disk, b, x, bufs[b := x]);
      assert CountAt(bufs, pins, waiting, b);
      bufs := bufs[b := bufs[b].(locked := true)];
      waiting := waiting[b := waiting[b] - 1];
      CountOne(old(bufs), pins, old(waiting), bufs, pins, waiting, b);
    }

    /** The rest of bread: read the block from disk unless the buffer already has it. */
    method Fill(b: nat)
      requires Valid() && b < NBUF && bufs[b].locked && bufs[b].dev != 0
      modifies this`bufs
      ensures Valid() && bufs[b].valid && bufs[b].data == Latest(old(bufs), disk, bufs[b].dev, bufs[b].blockno)
      ensures bufs == old(bufs)[b := old(bufs)[b].(valid := true, data := bufs[b].data)] && Keeps(old(bufs), bufs)
      ensures CleanIdle(old(bufs), disk) ==> CleanIdle(bufs, disk)
      ensures SameLatest(old(bufs), disk, bufs, disk)
    {
      Facts();
      LatestIs(bufs, disk, bufs[b].dev, bufs[b].blockno, b);
      if !bufs[b].valid {
        var d := DiskAt(disk, bufs[b].blockno);
        OneBuffer(bufs, disk, b, bufs[b].(valid := true, data := d));
        assert CountAt(bufs, pins, waiting, b);
        bufs := bufs[b := bufs[b].(valid := true, data := d)];
        CountOne(old(bufs), pins, waiting, bufs, pins, waiting, b);
      }
      OneChange(old(bufs), disk, b, bufs[b], bufs);
      assert CountAt(bufs, pins, waiting, b);
    }

    /** bread: a locked buffer with the block's latest contents, or `asleep` with a reference to the
        buffer when another process holds it; Resume goes on from there. */
    method Bread(dev: nat, blockno: nat) returns (b: nat, asleep: bool)
      requires Valid() && dev != 0 && CleanIdle(bufs, disk)
      modifies this`bufs, this`waiting, this`panicked
      ensures panicked <==> Uncached(old(bufs), dev, blockno) && NoneSpare(old(bufs))
      ensures !panicked ==>
        Valid() && IsFor(bufs, dev, blockno, b) && CleanIdle(bufs, disk) && SameLatest(old(bufs), disk, bufs, disk)
      ensures !panicked ==> bufs == old(bufs)[b := bufs[b]] && (asleep <==> !Unheld(old(bufs), dev, blockno))
      ensures !panicked ==>
                if IsFor(old(bufs), dev, blockno, b) then bufs[b].refcnt == old(bufs)[b].refcnt + 1
                else Uncached(old(bufs), dev, blockno) && old(bufs)[b].refcnt == 0 && bufs[b].refcnt == 1
      ensures !panicked && asleep ==> waiting == old(waiting)[b := old(waiting)[b] + 1] && bufs[b].locked
      ensures !panicked && !asleep ==> waiting == old(waiting) && bufs[b].locked && bufs[b].valid
      ensures !panicked && !asleep ==> bufs[b].data == Latest(old(bufs), disk, dev, blockno)
      ensures Keeps(old(bufs), bufs) && (Only(old(bufs), dev) ==> Only(bufs, dev))
    {
      Facts();
      asleep := false;
      b := Bget(dev, blockno);
      if panicked {
        return;
      }
      ghost var mid := bufs;
      HolderIs(old(bufs), bufs, dev, blockno, b);
      if bufs[b].locked {
        asleep := true;
        return;
      }
      Resume(b);
      assert bufs == old(bufs)[b := bufs[b]] && waiting == old(waiting);
      KeepsBoth(old(bufs), mid, bufs, b);
      OneChange(mid, disk, b, bufs[b], bufs);
    }

    /** A sleeper in bread goes on once the buffer is free: whatever happened meanwhile, its
        reference kept the buffer for the block. */
    method Resume(b: nat)
      requires Valid() && b < NBUF && waiting[b] > 0 && !bufs[b].locked && bufs[b].dev != 0
      modifies this`bufs, this`waiting
      ensures Valid() && bufs == old(bufs)[b := old(bufs)[b].(locked := true, valid := true, data := bufs[b].data)]
      ensures bufs[b].data == Latest(old(bufs), disk, bufs[b].dev, bufs[b].blockno)
      ensures waiting == old(waiting)[b := old(waiting)[b] - 1] && Keeps(old(bufs), bufs)
      ensures SameLatest(old(bufs), disk, bufs, disk) && (CleanIdle(old(bufs), disk) ==> CleanIdle(bufs, disk))
    {
      Facts();
      Lock(b);
      Facts();
      ghost var mid := bufs;
      assert CountAt(bufs, pins, waiting, b);
      Fill(b);
      KeepsBoth(old(bufs), mid, bufs, b);
    }

    /** The holder changes the buffer's bytes: the block's latest contents, and no other's, become d. */
    method Store(b: nat, d: Block)
      requires Valid() && b < NBUF && bufs[b].locked && bufs[b].valid && bufs[b].dev != 0
      modifies this`bufs
      ensures Valid() && bufs == old(bufs)[b := old(bufs)[b].(data := d)]
      ensures CleanIdle(old(bufs), disk) ==> CleanIdle(bufs, disk)
      ensures forall e: nat, n: nat {:trigger Latest(bufs, disk, e, n)} :: e != 0 ==>
                Latest(bufs, disk, e, n) == if IsFor(bufs, e, n, b) then d else Latest(old(bufs), disk, e, n)
    {
      Facts();
      ghost var x := bufs[b].(data := d);
      OneChange(bufs, disk, b, x, bufs[b := x]);
      assert CountAt(bufs, pins, waiting, b);
      bufs := bufs[b := bufs[b].(data := d)];
      CountOne(old(bufs), pins, waiting, bufs, pins, waiting, b);
      forall i: nat, j: nat
        ensures Differ(bufs, i, j)
      {
        assert Differ(old(bufs), i, j);
      }
      forall e: nat, n: nat | e != 0
        ensures Latest(bufs, disk, e, n) == if IsFor(bufs, e, n, b) then d else Latest(old(bufs), disk, e, n)
      {
        StoredLatest(old(bufs), disk, b, d, bufs, e, n);
      }
    }

    /** Write the buffer's bytes to disk; the caller must hold it. */
    method Bwrite(b: nat)
      requires Valid() && b < NBUF && bufs[b].valid && bufs[b].blockno < |disk|
      modifies this`disk, this`panicked
      ensures panicked <==> !bufs[b].locked
      ensures panicked ==> disk == old(disk)
      ensures !panicked ==> Valid() && disk == old(disk)[bufs[b].blockno := bufs[b].data]
      ensures !panicked ==> forall n: nat {:trigger Latest(bufs, disk, bufs[b].dev, n)} ::
                bufs[b].dev != 0 ==> Latest(bufs, disk, bufs[b].dev, n) == Latest(bufs, old(disk), bufs[b].dev, n)
      ensures !panicked && bufs[b].dev != 0 && Only(bufs, bufs[b].dev) && CleanIdle(bufs, old(disk)) ==>
        CleanIdle(bufs, disk)
    {
      Facts();
      if !bufs[b].locked {
        panicked := true;
        return;
      }
      disk := disk[bufs[b].blockno := bufs[b].data];
      forall n: nat | bufs[b].dev != 0
        ensures Latest(bufs, disk, bufs[b].dev, n) == Latest(bufs, old(disk), bufs[b].dev, n)
      {
        if n == bufs[b].blockno {
          LatestIs(bufs, disk, bufs[b].dev, n, b);
          LatestIs(bufs, old(disk), bufs[b].dev, n, b);
        }
      }
      if bufs[b].dev != 0 && Only(bufs, bufs[b].dev) && CleanIdle(bufs, old(disk)) {
        forall i: nat
          ensures CleanAt(bufs, disk, i)
        {
          assert CleanAt(bufs, old(disk), i) && OnlyAt(bufs, bufs[b].dev, i) && Differ(bufs, b, i);
        }
      }
    }

    /** Give the buffer back; the last reference moves it to the front of the ring. */
    method Brelse(b: nat)
      requires Valid() && b < NBUF
      modifies this`bufs, this`next, this`prev, this`order, this`stamp, this`clock, this`panicked
      ensures panicked <==> !old(bufs)[b].locked
      ensures !panicked ==> Valid() && old(bufs)[b].refcnt > 0
      ensures !panicked ==> bufs == old(bufs)[b := old(bufs)[b].(locked := false, refcnt := old(bufs)[b].refcnt - 1)]
      ensures Keeps(old(bufs), bufs)
      ensures !panicked && bufs[b].refcnt > 0 ==> order == old(order) && stamp == old(stamp) && clock == old(clock)
      ensures !panicked && bufs[b].refcnt == 0 ==>
                && clock == old(clock) + 1 && stamp == old(stamp)[b := clock] && order[0] == b
                && multiset(order) == multiset(old(order))
      ensures !panicked ==> SameLatest(old(bufs), disk, bufs, disk)
      ensures !panicked && CleanIdle(old(bufs), disk) ==>
                (CleanIdle(bufs, disk) <==>
                   (bufs[b].refcnt == 0 && bufs[b].valid ==> bufs[b].data == DiskAt(disk, bufs[b].blockno)))
    {
      Facts();
      assert CountAt(bufs, pins, waiting, b);
      if !bufs[b].locked {
        panicked := true;
        OneChange(bufs, disk, b, bufs[b], bufs);
        return;
      }
      ghost var x := bufs[b].(locked := false, refcnt := bufs[b].refcnt - 1);
      OneBuffer(bufs, disk, b, x);
      OneChange(bufs, disk, b, x, bufs[b := x]);
      bufs := bufs[b := bufs[b].(locked := false, refcnt := bufs[b].refcnt - 1)];
      CountOne(old(bufs), pins, waiting, bufs, pins, waiting, b);
      if bufs[b].refcnt == 0 {
        MoveToFront(b);
      }
    }

    method TakeOut(b: nat, ghost k: nat)
      requires Ring(next, prev, order) && k < |order| && order[k] == b
      modifies this`next, this`prev
      ensures Ring(next, prev, Without(order, k))
    {
      Neighbours(next, prev, order, k);
      prev := prev[next[b] := prev[b]];
      next := next[prev[b] := next[b]];
      Taken(old(next), old(prev), order, k, next, prev);
    }

    method PutFront(b: nat, ghost k: nat)
      requires Distinct(order) && k < |order| && order[k] == b && Ring(next, prev, Without(order, k))
      modifies this`next, this`prev
      ensures Ring(next, prev, ToFront(order, k))
    {
      Ends(next, prev, Without(order, k));
      next := next[b := next[HEAD]];
      prev := prev[b := HEAD];
      prev := prev[next[HEAD] := b];
      next := next[HEAD := b];
      ToFrontRing(old(next), old(prev), order, k, next, prev);
    }

    method MoveToFront(b: nat)
      requires Ring(next, prev, order) && |order| == NBUF && b < NBUF
      requires |stamp| == NBUF && ByRelease(order, stamp) && forall i :: 0 <= i < NBUF ==> stamp[i] <= clock
      modifies this`next, this`prev, this`order, this`stamp, this`clock
      ensures Ring(next, prev, order) && |order| == NBUF
      ensures clock == old(clock) + 1 && stamp == old(stamp)[b := clock] && ByRelease(order, stamp)
      ensures order[0] == b && multiset(order) == multiset(old(order))
    {
      ghost var k := Position(order, b);
      TakeOut(b, k);
      PutFront(b, k);
      FrontByRelease(order, stamp, k, clock + 1);
      ToFrontPermutes(order, k);
      order := ToFront(order, k);
      clock := clock + 1;
      stamp := stamp[b := clock];
    }

    method Bpin(b: nat)
      requires Valid() && b < NBUF
      modifies this`bufs, this`pins
      ensures
        && Valid() && bufs == old(bufs)[b := old(bufs)[b].(refcnt := old(bufs)[b].refcnt + 1)]
        && pins == old(pins)[b := old(pins)[b] + 1]
      ensures SameLatest(old(bufs), disk, bufs, disk) && (CleanIdle(old(bufs), disk) ==> CleanIdle(bufs, disk))
      ensures Keeps(old(bufs), bufs)
    {
      Facts();
      assert CountAt(bufs, pins, waiting, b);
      ghost var x := bufs[b].(refcnt := bufs[b].refcnt + 1);
      OneBuffer(bufs, disk, b, x);
      OneChange(bufs, disk, b, x, bufs[b := x]);
      bufs := bufs[b := bufs[b].(refcnt := bufs[b].refcnt + 1)];
      pins := pins[b := pins[b] + 1];
      CountOne(old(bufs), old(pins), waiting, bufs, pins, waiting, b);
    }

    method Bunpin(b: nat)
      requires Valid() && b < NBUF && pins[b] > 0
      modifies this`bufs, this`pins
      ensures Valid() && old(bufs)[b].refcnt > 0 && pins == old(pins)[b := old(pins)[b] - 1]
      ensures bufs == old(bufs)[b := old(bufs)[b].(refcnt := old(bufs)[b].refcnt - 1)]
      ensures SameLatest(old(bufs), disk, bufs, disk) && Keeps(old(bufs), bufs)
    {
      Facts();
      assert CountAt(bufs, pins, waiting, b);
      ghost var x := bufs[b].(refcnt := bufs[b].refcnt - 1);
      OneBuffer(bufs, disk, b, x);
      OneChange(bufs, disk, b, x, bufs[b := x]);
      bufs := bufs[b := bufs[b].(refcnt := bufs[b].refcnt - 1)];
      pins := pins[b := pins[b] - 1];
      CountOne(old(bufs), old(pins), waiting, bufs, pins, waiting, b);
    }
  }

  lemma HolderIs(bufs: seq<Buf>, bufs': seq<Buf>, dev: nat, n: nat, b: nat)
    requires
      && Unique(bufs) && dev != 0 && b < |bufs| == |bufs'| && bufs' == bufs[b := bufs'[b]] && IsFor(bufs', dev, n, b)
    requires if IsFor(bufs, dev, n, b) then
        bufs'[b].locked == bufs[b].locked
      else Uncached(bufs, dev, n) && !bufs'[b].locked
    ensures bufs'[b].locked <==> !Unheld(bufs, dev, n)
  {
    if IsFor(bufs, dev, n, b) {
      assert forall i: nat :: Differ(bufs, b, i) && IsFor(bufs, dev, n, i) ==> i == b;
    }
  }

  /** Two changes to buffer b that each respect references. */
  lemma KeepsBoth(b0: seq<Buf>, b1: seq<Buf>, b2: seq<Buf>, b: nat)
    requires |b1| == |b0| && |b2| == |b0| && b < |b0| && b1 == b0[b := b1[b]] && b2 == b1[b := b2[b]]
    requires Keeps(b0, b1) && Keeps(b1, b2) && b1[b].refcnt > 0
    ensures Keeps(b0, b2)
  {
    forall i: nat
      ensures KeptAt(b0, b2, i)
    {
      assert KeptAt(b0, b1, i) && KeptAt(b1, b2, i);
    }
  }

  lemma StoredLatest(bufs: seq<Buf>, disk: seq<Block>, b: nat, d: Block, bufs': seq<Buf>, e: nat, n: nat)
    requires Unique(bufs) && b < |bufs| && bufs[b].valid && bufs' == bufs[b := bufs[b].(data := d)] && e != 0
    ensures Latest(bufs', disk, e, n) == if IsFor(bufs', e, n, b) then d else Latest(bufs, disk, e, n)
  {
    forall i: nat, j: nat
      ensures Differ(bufs', i, j)
    {
      assert Differ(bufs, i, j);
    }
    if i :| IsFor(bufs, e, n, i) {
      assert IsFor(bufs', e, n, i) && Differ(bufs, b, i);
      LatestIs(bufs, disk, e, n, i);
      LatestIs(bufs', disk, e, n, i);
    } else {
      assert forall i :: IsFor(bufs', e, n, i) ==> IsFor(bufs, e, n, i);
    }
  }

  /** The buffer released last goes first; the others keep their order. */
  lemma FrontByRelease(order: seq<nat>, stamp: seq<nat>, k: nat, now: nat)
    requires Distinct(order) && |stamp| == NBUF && ByRelease(order, stamp) && k < |order|
    requires forall i :: 0 <= i < NBUF ==> stamp[i] < now
    ensures ByRelease(ToFront(order, k), stamp[order[k] := now])
  {
    var rest := Without(order, k);
    assert forall i :: 0 <= i < |rest| ==> rest[i] == order[if i < k then i else i + 1];
  }

  /** NBUF distinct buffers are all of them. */
  lemma Covers(order: seq<nat>)
    requires Distinct(order) && |order| == NBUF
    ensures forall b :: 0 <= b < NBUF ==> b in order
  {
    forall b: nat | b < NBUF
      ensures b in order
    {
      Pigeonhole(order, NBUF, b);
    }
  }

  lemma Position(order: seq<nat>, b: nat) returns (k: nat)
    requires Distinct(order) && |order| == NBUF && b < NBUF
    ensures k < NBUF && order[k] == b
  {
    Pigeonhole(order, NBUF, b);
    k :| k < NBUF && order[k] == b;
  }

  lemma Pigeonhole(order: seq<nat>, n: nat, b: nat)
    requires Distinct(order) && |order| == n && b < n && forall i :: 0 <= i < n ==> order[i] < n
    ensures b in order
  {
    var had := set i: nat | i < n :: order[i];
    CountDistinct(order, had, n);
    if b !in order {
      assert had <= Below(n) - {b};
      SubsetSize(had, Below(n) - {b});
    }
  }

  lemma CountDistinct(order: seq<nat>, had: set<nat>, n: nat)
    requires Distinct(order) && n <= |order| && had == set i: nat | i < n :: order[i]
    ensures |had| == n
  {
    if n > 0 {
      var fewer := set i: nat | i < n - 1 :: order[i];
      assert had == fewer + {order[n - 1]};
      CountDistinct(order, fewer, n - 1);
    }
  }
}
