/** What the limits of the file system lead to, shown by calls from a freshly formatted disk: a file of
    268 blocks that cannot be truncated, and a chunk of filewrite that outgrows its part of the log. */
module FsLimits {
  import opened Common
  import opened Blocks
  import opened Bitmap
  import opened FsTree
  import opened FsData
  import opened FsTrunc
  import opened FsSteps
  import opened Fs

  /** Every block a file holds lies on the way to one of its bytes. */
  ghost predicate Tight(v: View) {
    forall pl {:trigger TightAt(v, pl)} :: TightAt(v, pl)
  }

  ghost predicate TightAt(v: View, pl: Place) {
    pl in v.addr && v.addr[pl] != 0 && pl.ino < |v.inodes| ==> FirstBlock(pl.slot) * BSIZE < v.inodes[pl.ino].size
  }

  /** The free blocks are those from x on. */
  ghost predicate FreeFrom(sb: Super, v: View, x: nat) {
    forall b: nat {:trigger b in FreeSet(sb, v.blocks)} :: b in FreeSet(sb, v.blocks) <==> x <= b < sb.size
  }

  lemma {:induction false} IntervalCard(s: set<nat>, lo: nat, hi: nat)
    requires lo <= hi && forall b: nat :: b in s <==> lo <= b < hi
    ensures |s| == hi - lo
  {
    if lo == hi {
      assert s == {};
    } else {
      IntervalCard(s - {hi - 1}, lo, hi - 1);
    }
  }

  /** A set that holds with each number all others from x up to it is an interval. */
  lemma {:induction false} DownClosed(s: set<nat>, x: nat)
    requires forall c: nat, d: nat :: c in s && x <= d <= c ==> d in s
    requires forall c :: c in s ==> x <= c
    ensures forall c: nat :: c in s <==> x <= c < x + |s|
    decreases |s|
  {
    if s != {} {
      var c :| c in s;
      assert x in s;
      var t := s - {x};
      DownClosed(t, x + 1);
      assert |t| == |s| - 1 && forall d: nat :: d in s <==> d == x || d in t;
    }
  }

  /** What is given out when the free blocks are those from x on. */
  lemma Took(sb: Super, v: View, w: View, ino: nat, slots: set<Slot>, x: nat)
    requires GoodView(sb, v) && GoodView(sb, w) && Grew(v.addr, w.addr, ino, slots) && OwnerKept(v.owner, w.owner)
    requires LowestFirst(sb, v, w) && FreeFrom(sb, v, x)
    ensures FreeFrom(sb, w, x + |FreshSet(v, w)|)
    ensures forall c: nat :: c in FreshSet(v, w) <==> x <= c < x + |FreshSet(v, w)|
  {
    FreshCount(sb, v, w, ino, slots);
    var given, left := FreshSet(v, w), FreeSet(sb, w.blocks);
    forall c, d | c in given && d in left
      ensures c < d
    {
      assert Fresh(v, w, c);
    }
    FromBottom(FreeSet(sb, v.blocks), given, left, x, sb.size);
  }

  lemma FromBottom(free: set<nat>, given: set<nat>, left: set<nat>, x: nat, hi: nat)
    requires free == left + given && left !! given && (forall c, d :: c in given && d in left ==> c < d)
    requires forall b: nat :: b in free <==> x <= b < hi
    ensures forall c: nat :: c in given <==> x <= c < x + |given|
    ensures forall b: nat :: b in left <==> x + |given| <= b < hi
  {
    forall c: nat, d: nat | c in given && x <= d <= c
      ensures d in given
    {
      assert c in free && d in free && d !in left;
    }
    DownClosed(given, x);
    assert forall b: nat :: b in left <==> b in free && b !in given;
    assert given != {} ==> x + |given| - 1 in free;
  }

  /** A block given out to ino hangs in ino's tree. */
  lemma GivenTo(sb: Super, v: View, w: View, ino: nat, slots: set<Slot>)
    requires GoodView(sb, v) && GoodView(sb, w) && Grew(v.addr, w.addr, ino, slots) && OwnerKept(v.owner, w.owner)
    ensures forall i: nat {:trigger Held(w.owner, i)} ::
              Held(w.owner, i) == Held(v.owner, i) + if i == ino then FreshSet(v, w) else {}
  {
    forall c | c in FreshSet(v, w)
      ensures w.owner[c].ino == ino
    {
      var pl := w.owner[c];
      assert w.addr[pl] == c && v.addr[pl] != c;
    }
  }

  /** One block's worth at the end of a file of bn whole blocks. */
  lemma Appended(sb: Super, iblock: nat, v: View, w: View, ino: nat, src: seq<Byte>, bn: nat, n: nat, why: Stop, x: nat)
    returns (x': nat)
    requires GoodView(sb, v) && GoodView(sb, w) && Tight(v) && FreeFrom(sb, v, x) && Dense(w.inodes, w.addr)
    requires ino < |v.inodes| && v.inodes[ino].size == bn * BSIZE && bn < MAXFILE && 0 < n <= BSIZE
    requires Outcome(sb, iblock, v, w, ino, src, bn * BSIZE, n, n, why)
    ensures x < x' <= x + 3 && FreeFrom(sb, w, x') && Tight(w) && (bn < NDIRECT ==> x' == x + 1)
    ensures Resized(v.inodes, w.inodes, ino, bn * BSIZE + n)
    ensures forall i: nat, c: nat {:trigger c in Held(w.owner, i)} ::
              c in Held(w.owner, i) <==> c in Held(v.owner, i) || (i == ino && x <= c < x')
  {
    var off, slots := bn * BSIZE, Path(SlotOf(bn));
    OutcomeAll(sb, iblock, v, w, ino, src, off, n, n, why);
    OnePath(bn, n);
    assert Reached(off, n, n) == slots && Max(v.inodes[ino].size, off + n) == off + n;
    x' := AppendedBy(sb, v, w, ino, bn, n, slots, x);
  }

  lemma AppendedBy(sb: Super, v: View, w: View, ino: nat, bn: nat, n: nat, slots: set<Slot>, x: nat) returns (x': nat)
    requires GoodView(sb, v) && GoodView(sb, w) && Tight(v) && FreeFrom(sb, v, x) && Dense(w.inodes, w.addr)
    requires ino < |v.inodes| && v.inodes[ino].size == bn * BSIZE && bn < MAXFILE && 0 < n <= BSIZE
    requires
      && slots == Path(SlotOf(bn)) && Grew(v.addr, w.addr, ino, slots) && OwnerKept(v.owner, w.owner)
      && LowestFirst(sb, v, w)
    requires Resized(v.inodes, w.inodes, ino, bn * BSIZE + n)
    ensures x < x' <= x + 3 && FreeFrom(sb, w, x') && Tight(w) && (bn < NDIRECT ==> x' == x + 1)
    ensures forall i: nat, c: nat {:trigger c in Held(w.owner, i)} ::
              c in Held(w.owner, i) <==> c in Held(v.owner, i) || (i == ino && x <= c < x')
  {
    OnePath(bn, n);
    FreshCount(sb, v, w, ino, slots);
    AppendGain(sb, v, w, ino, bn, bn * BSIZE + n, slots);
    x' := x + |FreshSet(v, w)|;
    Took(sb, v, w, ino, slots, x);
    GivenTo(sb, v, w, ino, slots);
    GrewTight(v, w, ino, bn, slots, bn * BSIZE + n);
  }

  lemma OnePath(bn: nat, n: nat)
    requires bn < MAXFILE && 0 < n <= BSIZE
    ensures
      && Ceil(bn * BSIZE + n) == bn + 1 && bn * BSIZE / BSIZE == bn
      && Touched(bn * BSIZE, bn * BSIZE + n) == Path(SlotOf(bn))
    ensures |Path(SlotOf(bn))| <= 3 && (bn < NDIRECT ==> Path(SlotOf(bn)) == {Direct(bn)})
  {
    assert Paths(bn, bn) == {};
    assert Paths(bn, bn + 1) == Paths(bn, bn) + Path(SlotOf(bn));
  }

  /** The slots absent before such a write and not after it. */
  lemma AppendGain(sb: Super, v: View, w: View, ino: nat, bn: nat, end: nat, slots: set<Slot>)
    requires
      && GoodView(sb, v) && GoodView(sb, w) && Tight(v) && Dense(w.inodes, w.addr) && Grew(v.addr, w.addr, ino, slots)
    requires
      && bn < MAXFILE && slots == Path(SlotOf(bn)) && ino < |v.inodes| == |w.inodes| && v.inodes[ino].size == bn * BSIZE
    requires w.inodes[ino].size == end > bn * BSIZE && |slots| <= 3 && (bn < NDIRECT ==> slots == {Direct(bn)})
    ensures var gained := AbsentOf(v.addr, ino, slots) - AbsentOf(w.addr, ino, slots);
      0 < |gained| <= 3 && (bn < NDIRECT ==> |gained| == 1)
  {
    var s, gained := SlotOf(bn), AbsentOf(v.addr, ino, slots) - AbsentOf(w.addr, ino, slots);
    NextAbsent(v, w, ino, bn, end);
    assert s in slots && Has(v.addr, ino, s) && Has(w.addr, ino, s);
    GainSize(gained, slots, s);
  }

  lemma NextAbsent(v: View, w: View, ino: nat, bn: nat, end: nat)
    requires Tight(v) && Dense(w.inodes, w.addr) && ino < |v.inodes| == |w.inodes| && bn < MAXFILE
    requires v.inodes[ino].size == bn * BSIZE && w.inodes[ino].size == end > bn * BSIZE
    ensures Home(ino, bn) in w.addr && w.addr[Home(ino, bn)] != 0
    ensures Home(ino, bn) in v.addr ==> v.addr[Home(ino, bn)] == 0
  {
    assert TightAt(v, Home(ino, bn)) && FirstBlock(SlotOf(bn)) == bn;
  }

  lemma GainSize(gained: set<Slot>, slots: set<Slot>, s: Slot)
    requires gained <= slots && s in gained && |slots| <= 3
    ensures 0 < |gained| <= 3 && (slots == {s} ==> |gained| == 1)
  {
    SubsetSize(gained, slots);
    SubsetSize({s}, gained);
  }

  lemma GrewTight(v: View, w: View, ino: nat, bn: nat, slots: set<Slot>, end: nat)
    requires
      && Tight(v) && ino < |v.inodes| && Grew(v.addr, w.addr, ino, slots) && v.inodes[ino].size <= end
      && bn * BSIZE < end
    requires bn < MAXFILE && slots == Path(SlotOf(bn)) && Resized(v.inodes, w.inodes, ino, end)
    ensures Tight(w)
  {
    forall pl
      ensures TightAt(w, pl)
    {
      if pl in w.addr && w.addr[pl] != 0 && pl.ino < |w.inodes| {
        assert TightAt(v, pl);
        if v.addr[pl] == 0 {
          assert w.addr[pl] != v.addr[pl];
          PathFirst(bn, pl.slot);
        }
      }
    }
  }

  /** There is room for one more block of the file. */
  lemma RoomFor(sb: Super, v: View, ino: nat, src: seq<Byte>, bn: nat, n: nat, x: nat)
    requires FreeFrom(sb, v, x) && bn < MAXFILE && 0 < n <= BSIZE && n <= |src|
    requires x + 3 <= sb.size || (bn < NDIRECT && x < sb.size)
    ensures Enough(sb, v, ino, src, bn * BSIZE, n)
  {
    OnePath(bn, n);
    SubsetSize(AbsentOf(v.addr, ino, Path(SlotOf(bn))), Path(SlotOf(bn)));
    IntervalCard(FreeSet(sb, v.blocks), x, sb.size);
  }

  /** Which blocks a file holds, besides its place in a disk filled from the bottom. */
  ghost predicate Filled(fs: FileSystem, x: nat)
    reads fs
  {
    fs.Sound() && Tight(fs.Now()) && FreeFrom(fs.sb, fs.Now(), x)
  }

  /** Append n bytes, at most one block, to a file of bn whole blocks. */
  method Append(fs: FileSystem, ino: nat, bn: nat, n: nat, ghost x: nat) returns (ghost x': nat)
    requires Filled(fs, x) && ino < |fs.inodes| && fs.inodes[ino].size == bn * BSIZE && bn < MAXFILE && 0 < n <= BSIZE
    requires x + 3 <= fs.sb.size || (bn < NDIRECT && x < fs.sb.size)
    modifies fs
    ensures Filled(fs, x') && x < x' <= x + 3 && (bn < NDIRECT ==> x' == x + 1)
    ensures Resized(old(fs.inodes), fs.inodes, ino, bn * BSIZE + n)
    ensures forall i: nat, c: nat {:trigger c in Held(fs.owner, i)} ::
              c in Held(fs.owner, i) <==> c in Held(old(fs.owner), i) || (i == ino && x <= c < x')
  {
    var src := seq(n, _ => 0);
    ghost var v := fs.Now();
    RoomFor(fs.sb, v, ino, src, bn, n, x);
    var r;
    ghost var why;
    r, why := fs.Writei(ino, src, bn * BSIZE, n);
    x' := Appended(fs.sb, fs.inodestart + ino / IPB, v, fs.Now(), ino, src, bn, n, why, x);
  }

  /** On every formatted disk with 804 blocks for files, a file of 268 blocks can be made; its size is in
      the range for which itrunc panics. */
  method UntruncatableFile(sb: Super, inodestart: nat) returns (fs: FileSystem)
    requires GoodSuper(sb, sb.size) && sb.nmeta + 3 * (SINGLES + 1) <= sb.size
    ensures fresh(fs) && fs.sb == sb && fs.Sound() && |fs.inodes| == 1 && fs.inodes[0].size == (SINGLES + 1) * BSIZE
    ensures Place(0, Dbl) in fs.addr && fs.addr[Place(0, Dbl)] != 0 && AbsentMids(fs.addr, 0, NINDIRECT) >= 2
  {
    fs := new FileSystem(sb, inodestart, 1);
    ghost var x: nat := sb.nmeta;
    var bn := 0;
    while bn < SINGLES + 1
      invariant bn <= SINGLES + 1 && fs.sb == sb && Filled(fs, x) && x <= sb.nmeta + 3 * bn
      invariant |fs.inodes| == 1 && fs.inodes[0].size == bn * BSIZE
      invariant fresh(fs)
    {
      x := Append(fs, 0, bn, BSIZE, x);
      bn := bn + 1;
    }
    PanicBySize(sb, fs.Now(), 0);
  }

  // ------------------------------------------- a chunk that outgrows the log's budget

  /** A file that ends in the middle of the next to last block its indirect block can name. */
  const EDGE: nat := (SINGLES - 2) * BSIZE + BSIZE / 2

  /** The slots on the way to the chunk that follows. */
  function EdgeSlots(): set<Slot> {
    {IndLeaf(NINDIRECT - 2), IndLeaf(NINDIRECT - 1), Ind, Dbl, DblMid(0), DblLeaf(0, 0), DblLeaf(0, 1)}
  }

  function EdgeData(): set<Slot> {
    {IndLeaf(NINDIRECT - 2), IndLeaf(NINDIRECT - 1), DblLeaf(0, 0), DblLeaf(0, 1)}
  }

  lemma EdgePaths()
    ensures EDGE + CHUNK <= MAXSIZE && Touched(EDGE, EDGE + CHUNK) == EdgeSlots()
    ensures DataSlots(EDGE, EDGE + CHUNK) == EdgeData()
  {
    var lo := SINGLES - 2;
    assert EDGE / BSIZE == lo && Ceil(EDGE + CHUNK) == lo + 4;
    assert SlotOf(lo) == IndLeaf(NINDIRECT - 2) && SlotOf(lo + 1) == IndLeaf(NINDIRECT - 1);
    assert SlotOf(lo + 2) == DblLeaf(0, 0) && SlotOf(lo + 3) == DblLeaf(0, 1);
    assert Paths(lo, lo) == {} && Paths(lo, lo + 1) == Paths(lo, lo) + Path(SlotOf(lo));
    assert Paths(lo, lo + 2) == Paths(lo, lo + 1) + Path(SlotOf(lo + 1));
    assert Paths(lo, lo + 3) == Paths(lo, lo + 2) + Path(SlotOf(lo + 2));
    assert Paths(lo, lo + 4) == Paths(lo, lo + 3) + Path(SlotOf(lo + 3));
    EdgeDataSlots(lo);
  }

  lemma EdgeDataSlots(lo: nat)
    requires lo == SINGLES - 2 && EDGE / BSIZE == lo && Ceil(EDGE + CHUNK) == lo + 4
    ensures DataSlots(EDGE, EDGE + CHUNK) == EdgeData()
  {
    forall s
      ensures s in DataSlots(EDGE, EDGE + CHUNK) <==> s in EdgeData()
    {
      if s in DataSlots(EDGE, EDGE + CHUNK) {
        var bn: nat :| lo <= bn < lo + 4 && s == SlotOf(bn);
        assert bn == lo || bn == lo + 1 || bn == lo + 2 || bn == lo + 3;
      }
      assert SlotOf(lo) in DataSlots(EDGE, EDGE + CHUNK) && SlotOf(lo + 1) in DataSlots(EDGE, EDGE + CHUNK);
      assert SlotOf(lo + 2) in DataSlots(EDGE, EDGE + CHUNK) && SlotOf(lo + 3) in DataSlots(EDGE, EDGE + CHUNK);
    }
  }

  /** Five of those slots are still absent. */
  lemma EdgeAbsent(sb: Super, v: View, ino: nat)
    requires GoodView(sb, v) && Dense(v.inodes, v.addr) && Tight(v) && ino < |v.inodes| && v.inodes[ino].size == EDGE
    ensures AbsentOf(v.addr, ino, EdgeSlots()) == EdgeSlots() - {IndLeaf(NINDIRECT - 2), Ind}
    ensures |AbsentOf(v.addr, ino, EdgeSlots())| == 5
  {
    assert SlotOf(SINGLES - 2) == IndLeaf(NINDIRECT - 2);
    assert Home(ino, SINGLES - 2) in v.addr && v.addr[Home(ino, SINGLES - 2)] != 0;
    EntryIs(v.blocks, v.inodes, v.addr, Place(ino, IndLeaf(NINDIRECT - 2)));
    forall s | s in EdgeSlots() - {IndLeaf(NINDIRECT - 2), Ind}
      ensures Has(v.addr, ino, s) && v.addr[Place(ino, s)] == 0
    {
      assert TightAt(v, Place(ino, s)) && FirstBlock(s) >= SINGLES - 1;
    }
    assert Has(v.addr, ino, Ind) && Has(v.addr, ino, IndLeaf(NINDIRECT - 2));
    assert EdgeSlots() - {IndLeaf(NINDIRECT - 2), Ind}
      == {IndLeaf(NINDIRECT - 1), Dbl, DblMid(0), DblLeaf(0, 0), DblLeaf(0, 1)};
  }

  /** One free block under each of three bitmap blocks, with two more under the second. */
  ghost predicate Scattered(sb: Super, v: View, c: nat, d: nat, e: nat) {
    && sb.nmeta <= c < d && d + 2 < e < sb.size && c / BPB < d / BPB < e / BPB
    && forall b: nat {:trigger b in FreeSet(sb, v.blocks)} ::
         b in FreeSet(sb, v.blocks) <==> b == c || d <= b <= d + 2 || e <= b < sb.size
  }

  /** Five blocks given out reach all three of them. */
  lemma Scatter(sb: Super, v: View, w: View, c: nat, d: nat, e: nat)
    requires Scattered(sb, v, c, d, e) && LowestFirst(sb, v, w) && |FreshSet(v, w)| == 5
    requires FreeSet(sb, v.blocks) == FreeSet(sb, w.blocks) + FreshSet(v, w)
    ensures Fresh(v, w, c) && Fresh(v, w, d) && Fresh(v, w, e)
  {
    var given, left := FreshSet(v, w), FreeSet(sb, w.blocks);
    forall a, b | a in given && b in left
      ensures a < b
    {
      assert Fresh(v, w, a);
    }
    LowestFive(FreeSet(sb, v.blocks), given, left, c, d, e, sb.size);
  }

  lemma LowestFive(free: set<nat>, given: set<nat>, left: set<nat>, c: nat, d: nat, e: nat, hi: nat)
    requires free == left + given && (forall a, b :: a in given && b in left ==> a < b) && |given| == 5
    requires c < d && d + 2 < e < hi && forall b: nat :: b in free <==> b == c || d <= b <= d + 2 || e <= b < hi
    ensures c in given && d in given && e in given
  {
    if e in left {
      forall b | b in given
        ensures b in {c, d, d + 1, d + 2}
      {
        assert b in free && b < e;
      }
      SubsetSize(given, {c, d, d + 1, d + 2});
    }
    assert e in free && c in free && d in free;
    assert e in given;
  }

  /** The blocks of all seven slots are logged. */
  lemma EdgeLogged(sb: Super, iblock: nat, v: View, w: View, ino: nat, s: Slot)
    requires
      && GoodView(sb, v) && GoodView(sb, w) && OwnerKept(v.owner, w.owner)
      && LogsAlso(sb, v, w, ino, EdgeData(), iblock)
    requires AllPresent(w.addr, ino, EdgeSlots()) && s in EdgeSlots() && Grew(v.addr, w.addr, ino, EdgeSlots())
    requires AbsentOf(v.addr, ino, EdgeSlots()) == EdgeSlots() - {IndLeaf(NINDIRECT - 2), Ind}
    ensures w.addr[Place(ino, s)] in w.logged && sb.nmeta <= w.addr[Place(ino, s)]
  {
    var b := w.addr[Place(ino, s)];
    assert w.owner[b] == Place(ino, s);
    if s in EdgeData() {
      assert HangsAt(w, ino, s, b);
      assert At(w, ino, EdgeData(), b);
    } else if s == Ind {
      NewlyHung(sb, v, w, ino, EdgeSlots(), IndLeaf(NINDIRECT - 1));
      var c := w.addr[Place(ino, IndLeaf(NINDIRECT - 1))];
      assert Names(w, c, b) && LoggedFor(sb, w, c, b);
      assert Allocs(sb, v, w, b);
    } else {
      NewlyHung(sb, v, w, ino, EdgeSlots(), s);
      assert LoggedFor(sb, w, b, b);
      assert Allocs(sb, v, w, b);
    }
  }

  lemma NewlyHung(sb: Super, v: View, w: View, ino: nat, slots: set<Slot>, s: Slot)
    requires GoodView(sb, v) && GoodView(sb, w) && OwnerKept(v.owner, w.owner) && s in AbsentOf(v.addr, ino, slots)
    requires Place(ino, s) in w.addr && w.addr[Place(ino, s)] != 0
    ensures Fresh(v, w, w.addr[Place(ino, s)]) && w.owner[w.addr[Place(ino, s)]] == Place(ino, s)
  {
    var b := w.addr[Place(ino, s)];
    assert w.owner[b] == Place(ino, s) && Has(v.addr, ino, s);
  }

  /** A chunk written in full. */
  lemma WholeChunk(sb: Super, iblock: nat, v: View, w: View, ino: nat, src: seq<Byte>, off: nat, n: nat, why: Stop,
                   slots: set<Slot>, written: set<Slot>)
    requires Outcome(sb, iblock, v, w, ino, src, off, n, n, why)
    requires slots == Touched(off, off + n) && written == DataSlots(off, off + n)
    ensures ino < |v.inodes| == |w.inodes| && w.inodes[ino].size >= off + n
    ensures Grew(v.addr, w.addr, ino, slots) && OwnerKept(v.owner, w.owner) && LowestFirst(sb, v, w)
    ensures LogsAlso(sb, v, w, ino, written, iblock)
  {
    OutcomeAll(sb, iblock, v, w, ino, src, off, n, n, why);
  }

  /** Such a chunk logs seven blocks of the file, three bitmap blocks and the inode's. */
  lemma ElevenLogged(sb: Super, iblock: nat, v: View, w: View, ino: nat, src: seq<Byte>, why: Stop, c: nat, d: nat,
                     e: nat)
    requires GoodView(sb, v) && GoodView(sb, w) && Dense(v.inodes, v.addr) && Tight(v) && Dense(w.inodes, w.addr)
    requires ino < |v.inodes| && v.inodes[ino].size == EDGE && Scattered(sb, v, c, d, e) && iblock < sb.bmapstart
    requires Outcome(sb, iblock, v, w, ino, src, EDGE, CHUNK, CHUNK, why)
    ensures |w.logged| >= 11
  {
    var slots, written := EdgeSlots(), EdgeData();
    EdgePaths();
    WholeChunk(sb, iblock, v, w, ino, src, EDGE, CHUNK, why, slots, written);
    EdgeFacts(sb, iblock, v, w, ino, slots, written);
    Scatter(sb, v, w, c, d, e);
    var tree := TreeLogged(sb, w, ino, slots);
    BitsLogged(sb, iblock, v, w, ino, written, c);
    BitsLogged(sb, iblock, v, w, ino, written, d);
    BitsLogged(sb, iblock, v, w, ino, written, e);
    Eleven(w.logged, tree, sb.nmeta, iblock, BitBlock(sb.bmapstart, c), BitBlock(sb.bmapstart, d),
           BitBlock(sb.bmapstart, e));
  }

  ghost predicate SlotLogged(sb: Super, w: View, ino: nat, s: Slot) {
    HangsAt(w, ino, s, AtSlot(w, ino, s)) && AtSlot(w, ino, s) in w.logged && sb.nmeta <= AtSlot(w, ino, s)
  }

  ghost function AtSlot(w: View, ino: nat, s: Slot): nat {
    if Place(ino, s) in w.addr then w.addr[Place(ino, s)] else 0
  }

  lemma EdgeFacts(sb: Super, iblock: nat, v: View, w: View, ino: nat, slots: set<Slot>, written: set<Slot>)
    requires GoodView(sb, v) && GoodView(sb, w) && Dense(v.inodes, v.addr) && Tight(v) && Dense(w.inodes, w.addr)
    requires ino < |v.inodes| == |w.inodes| && v.inodes[ino].size == EDGE && w.inodes[ino].size >= EDGE + CHUNK
    requires Grew(v.addr, w.addr, ino, slots) && OwnerKept(v.owner, w.owner) && slots == EdgeSlots()
    requires LogsAlso(sb, v, w, ino, written, iblock) && written == EdgeData()
    ensures |slots| == 7 && (forall s {:trigger SlotLogged(sb, w, ino, s)} :: s in slots ==> SlotLogged(sb, w, ino, s))
    ensures |FreshSet(v, w)| == 5 && FreeSet(sb, v.blocks) == FreeSet(sb, w.blocks) + FreshSet(v, w)
  {
    EdgeAbsent(sb, v, ino);
    EdgePresent(sb, w, ino);
    EdgeGiven(sb, v, w, ino);
    forall s | s in slots
      ensures SlotLogged(sb, w, ino, s)
    {
      EdgeLogged(sb, iblock, v, w, ino, s);
    }
    EdgeSeven();
  }

  lemma EdgeSeven()
    ensures |EdgeSlots()| == 7
  {
  }

  lemma TreeLogged(sb: Super, w: View, ino: nat, slots: set<Slot>) returns (tree: set<nat>)
    requires GoodView(sb, w) && forall s {:trigger SlotLogged(sb, w, ino, s)} :: s in slots ==>
      SlotLogged(sb, w, ino, s)
    ensures tree <= w.logged && |tree| >= |slots| && forall b :: b in tree ==> sb.nmeta <= b
  {
    tree := set b | b in w.logged && sb.nmeta <= b;
    forall s | s in slots
      ensures Place(ino, s) in w.addr && w.addr[Place(ino, s)] != 0 && w.addr[Place(ino, s)] in tree
    {
      assert SlotLogged(sb, w, ino, s);
    }
    SlotsSize(w.addr, w.owner, sb.nmeta, sb.size, ino, slots, tree);
  }

  lemma EdgeGiven(sb: Super, v: View, w: View, ino: nat)
    requires GoodView(sb, v) && GoodView(sb, w) && OwnerKept(v.owner, w.owner) && Grew(v.addr, w.addr, ino, EdgeSlots())
    requires |AbsentOf(v.addr, ino, EdgeSlots())| == 5 && AllPresent(w.addr, ino, EdgeSlots())
    ensures |FreshSet(v, w)| == 5 && FreeSet(sb, v.blocks) == FreeSet(sb, w.blocks) + FreshSet(v, w)
  {
    var slots := EdgeSlots();
    FreshCount(sb, v, w, ino, slots);
    assert AbsentOf(w.addr, ino, slots) == {};
    assert AbsentOf(v.addr, ino, slots) - AbsentOf(w.addr, ino, slots) == AbsentOf(v.addr, ino, slots);
  }

  lemma EdgePresent(sb: Super, w: View, ino: nat)
    requires GoodView(sb, w) && Dense(w.inodes, w.addr) && ino < |w.inodes| && w.inodes[ino].size >= EDGE + CHUNK
    ensures AllPresent(w.addr, ino, EdgeSlots())
  {
    EdgePaths();
    forall bn: nat | EDGE / BSIZE <= bn < Ceil(EDGE + CHUNK)
      ensures Home(ino, bn) in w.addr && w.addr[Home(ino, bn)] != 0
    {
      assert bn * BSIZE < EDGE + CHUNK;
    }
    PathsPresent(sb, w, ino, EDGE / BSIZE, Ceil(EDGE + CHUNK));
  }

  lemma BitsLogged(sb: Super, iblock: nat, v: View, w: View, ino: nat, written: set<Slot>, c: nat)
    requires GoodView(sb, w) && LogsAlso(sb, v, w, ino, written, iblock) && Fresh(v, w, c)
    ensures BitBlock(sb.bmapstart, c) in w.logged && BitBlock(sb.bmapstart, c) < sb.nmeta
  {
    var b := BitBlock(sb.bmapstart, c);
    assert w.owner[c] in w.addr;
    BitBlockBelow(sb, |w.blocks|, c);
    assert LoggedFor(sb, w, c, b);
    assert Allocs(sb, v, w, b);
  }

  lemma Eleven(logged: set<nat>, tree: set<nat>, lo: nat, i: nat, x: nat, y: nat, z: nat)
    requires tree <= logged && |tree| >= 7 && (forall b :: b in tree ==> lo <= b)
    requires i < x < y < z < lo && i in logged && x in logged && y in logged && z in logged
    ensures |logged| >= 11
  {
    assert |tree + {i, x, y, z}| == |tree| + 4;
    SubsetSize(tree + {i, x, y, z}, logged);
  }

  /** Where the free blocks begin, in a disk filled from the bottom. */
  method FirstFree(fs: FileSystem, ghost x: nat) returns (first: nat)
    requires Filled(fs, x) && x <= fs.sb.size
    ensures first == x
  {
    first := 0;
    while first < fs.sb.size && Marked(fs.blocks, fs.sb.bmapstart, first)
      invariant first <= x
    {
      assert first !in FreeSet(fs.sb, fs.blocks);
      first := first + 1;
    }
    assert first < fs.sb.size ==> first in FreeSet(fs.sb, fs.Now().blocks);
  }

  /** Append whole blocks to a file until the blocks below `limit` are all in use. */
  method FillTo(fs: FileSystem, ino: nat, limit: nat, bn: nat, ghost x: nat) returns (bn': nat, ghost x': nat)
    requires
      && Filled(fs, x) && ino < |fs.inodes| && fs.inodes[ino].size == bn * BSIZE && x <= fs.sb.size
      && limit + 2 <= fs.sb.size
    requires limit <= fs.sb.nmeta + MAXFILE && bn + fs.sb.nmeta <= x
    modifies fs
    ensures Filled(fs, x') && limit <= x' && x <= x' <= (if x < limit then limit + 2 else x) && bn' + fs.sb.nmeta <= x'
    ensures Resized(old(fs.inodes), fs.inodes, ino, bn' * BSIZE)
    ensures forall i: nat, c: nat {:trigger c in Held(fs.owner, i)} ::
              i != ino ==> (c in Held(fs.owner, i) <==> c in Held(old(fs.owner), i))
  {
    bn', x' := bn, x;
    var first := FirstFree(fs, x);
    while first < limit
      invariant
        && Filled(fs, x') && x <= x' <= (if x < limit then limit + 2 else x) && bn' + fs.sb.nmeta <= x' && first == x'
      invariant Resized(old(fs.inodes), fs.inodes, ino, bn' * BSIZE)
      invariant forall i: nat, c: nat {:trigger c in Held(fs.owner, i)} ::
                  i != ino ==> (c in Held(fs.owner, i) <==> c in Held(old(fs.owner), i))
      decreases limit - first
    {
      x' := Append(fs, ino, bn', BSIZE, x');
      bn' := bn' + 1;
      first := FirstFree(fs, x');
    }
  }

  /** The files of the scenario: two that are freed again, the one the chunk goes to, and two for the rest. */
  const LOW := 0
  const EDGED := 1
  const BULK := 2
  const MIDDLE := 3
  const FILLER := 4

  ghost predicate Holds(fs: FileSystem, ino: nat, lo: nat, hi: nat)
    reads fs
  {
    forall c: nat {:trigger c in Held(fs.owner, ino)} :: c in Held(fs.owner, ino) <==> lo <= c < hi
  }

  /** A new disk with a one-block file and the file the chunk will go to. */
  method MakeEdge(sb: Super, inodestart: nat) returns (fs: FileSystem, ghost x: nat)
    requires GoodSuper(sb, sb.size) && sb.nmeta + BPB < sb.size
    ensures
      && fresh(fs) && fs.sb == sb && fs.inodestart == inodestart && Filled(fs, x)
      && sb.nmeta < x <= sb.nmeta + 3 * SINGLES
    ensures |fs.inodes| == 5 && fs.inodes[LOW].size == BSIZE && fs.inodes[EDGED].size == EDGE
    ensures fs.inodes[BULK].size == fs.inodes[MIDDLE].size == fs.inodes[FILLER].size == 0
    ensures Holds(fs, LOW, sb.nmeta, sb.nmeta + 1) && Holds(fs, MIDDLE, 0, 0)
  {
    fs := new FileSystem(sb, inodestart, 5);
    x := Append(fs, LOW, 0, BSIZE, sb.nmeta);
    var bn := 0;
    while bn < SINGLES - 2
      invariant
        && bn <= SINGLES - 2 && fs.sb == sb && fs.inodestart == inodestart && Filled(fs, x)
        && sb.nmeta < x <= sb.nmeta + 1 + 3 * bn
      invariant fresh(fs) && |fs.inodes| == 5 && fs.inodes[LOW].size == BSIZE && fs.inodes[EDGED].size == bn * BSIZE
      invariant fs.inodes[BULK].size == fs.inodes[MIDDLE].size == fs.inodes[FILLER].size == 0
      invariant Holds(fs, LOW, sb.nmeta, sb.nmeta + 1) && Holds(fs, MIDDLE, 0, 0)
    {
      x := Append(fs, EDGED, bn, BSIZE, x);
      bn := bn + 1;
    }
    x := Append(fs, EDGED, bn, BSIZE / 2, x);
  }

  /** Three blocks of a file under the second bitmap block, and everything up to the third in use. */
  method MakeGap(fs: FileSystem, ghost x: nat, next: nat) returns (ghost d: nat)
    requires
      && Filled(fs, x) && |fs.inodes| == 5
      && fs.inodes[BULK].size == fs.inodes[MIDDLE].size == fs.inodes[FILLER].size == 0
    requires
      && fs.sb.nmeta <= x <= next - BPB + 3 * SINGLES && BPB <= next <= fs.sb.nmeta + 2 * BPB && next < fs.sb.size
      && Holds(fs, MIDDLE, 0, 0)
    modifies fs
    ensures Filled(fs, next) && next - BPB <= d && d + 2 < next && Holds(fs, MIDDLE, d, d + 3)
    ensures
      && |fs.inodes| == 5 && fs.inodes[LOW].size == old(fs.inodes)[LOW].size
      && fs.inodes[EDGED].size == old(fs.inodes)[EDGED].size
    ensures fs.inodes[MIDDLE].size == 3 * BSIZE
    ensures forall c: nat {:trigger c in Held(fs.owner, LOW)} ::
      c in Held(fs.owner, LOW) <==> c in Held(old(fs.owner), LOW)
  {
    ghost var y: nat;
    var bn;
    bn, y := FillTo(fs, BULK, next - BPB, 0, x);
    d := y;
    AddThree(fs, d);
    bn, y := FillTo(fs, BULK, next - 3, bn, d + 3);
    FillRest(fs, next, y);
  }

  /** The three blocks. */
  method AddThree(fs: FileSystem, ghost d: nat)
    requires
      && Filled(fs, d) && |fs.inodes| == 5 && fs.inodes[MIDDLE].size == 0 && d + 3 <= fs.sb.size
      && Holds(fs, MIDDLE, 0, 0)
    modifies fs
    ensures Filled(fs, d + 3) && Resized(old(fs.inodes), fs.inodes, MIDDLE, 3 * BSIZE) && Holds(fs, MIDDLE, d, d + 3)
    ensures forall i: nat, c: nat {:trigger c in Held(fs.owner, i)} ::
              i != MIDDLE ==> (c in Held(fs.owner, i) <==> c in Held(old(fs.owner), i))
  {
    ghost var y: nat := Append(fs, MIDDLE, 0, BSIZE, d);
    y := Append(fs, MIDDLE, 1, BSIZE, y);
    y := Append(fs, MIDDLE, 2, BSIZE, y);
  }

  /** Direct blocks of one more file, one at a time. */
  method FillRest(fs: FileSystem, next: nat, ghost x: nat)
    requires Filled(fs, x) && |fs.inodes| == 5 && fs.inodes[FILLER].size == 0 && x <= next <= x + 3 && next < fs.sb.size
    modifies fs
    ensures Filled(fs, next) && |fs.inodes| == 5
    ensures forall i :: 0 <= i < 5 && i != FILLER ==> fs.inodes[i].size == old(fs.inodes)[i].size
    ensures forall i: nat, c: nat {:trigger c in Held(fs.owner, i)} ::
              i != FILLER ==> (c in Held(fs.owner, i) <==> c in Held(old(fs.owner), i))
  {
    ghost var y: nat := x;
    var bn := 0;
    var first := FirstFree(fs, y);
    while first < next
      invariant
        && Filled(fs, y) && first == y && x <= y <= next && bn == y - x && |fs.inodes| == 5
        && fs.inodes[FILLER].size == bn * BSIZE
      invariant forall i :: 0 <= i < 5 && i != FILLER ==> fs.inodes[i].size == old(fs.inodes)[i].size
      invariant forall i: nat, c: nat {:trigger c in Held(fs.owner, i)} ::
                  i != FILLER ==> (c in Held(fs.owner, i) <==> c in Held(old(fs.owner), i))
    {
      y := Append(fs, FILLER, bn, BSIZE, y);
      bn := bn + 1;
      first := FirstFree(fs, y);
    }
  }

  lemma EmptiedTight(v: View, w: View, ino: nat)
    requires Tight(v) && ino < |v.inodes| && w.inodes == v.inodes[ino := EmptyInode()] && w.addr == Emptied(v.addr, ino)
    ensures Tight(w)
  {
    forall pl
      ensures TightAt(w, pl)
    {
      assert TightAt(v, pl);
    }
  }

  /** Truncate the two small files: their blocks are free again. */
  method OpenGap(fs: FileSystem, ghost d: nat, ghost e: nat)
    requires Filled(fs, e) && |fs.inodes| == 5 && fs.inodes[LOW].size == BSIZE && fs.inodes[MIDDLE].size == 3 * BSIZE
    requires Holds(fs, LOW, fs.sb.nmeta, fs.sb.nmeta + 1) && Holds(fs, MIDDLE, d, d + 3)
    requires fs.sb.nmeta < d && d + 2 < e < fs.sb.size && fs.sb.nmeta / BPB < d / BPB < e / BPB
    modifies fs
    ensures fs.Sound() && Tight(fs.Now()) && Scattered(fs.sb, fs.Now(), fs.sb.nmeta, d, e)
    ensures |fs.inodes| == 5 && fs.inodes[EDGED] == old(fs.inodes)[EDGED]
  {
    ghost var u := fs.Now();
    ghost var lost := fs.Itrunc(LOW);
    ghost var v := fs.Now();
    EmptiedTight(u, v, LOW);
    assert Held(v.owner, MIDDLE) == Held(u.owner, MIDDLE);
    lost := fs.Itrunc(MIDDLE);
    EmptiedTight(v, fs.Now(), MIDDLE);
    assert FreeSet(fs.sb, fs.blocks) == FreeSet(fs.sb, u.blocks) + Held(u.owner, LOW) + Held(u.owner, MIDDLE);
    GapFree(FreeSet(fs.sb, u.blocks), Held(u.owner, LOW), Held(u.owner, MIDDLE), FreeSet(fs.sb, fs.blocks), fs.sb.nmeta,
            d, e, fs.sb.size);
  }

  lemma GapFree(free: set<nat>, low: set<nat>, middle: set<nat>, free': set<nat>, c: nat, d: nat, e: nat, hi: nat)
    requires free' == free + low + middle
    requires (forall b: nat :: b in free <==> e <= b < hi) && (forall b: nat :: b in low <==> c <= b < c + 1)
    requires forall b: nat :: b in middle <==> d <= b < d + 3
    ensures forall b: nat {:trigger b in free'} :: b in free' <==> b == c || d <= b <= d + 2 || e <= b < hi
  {
    assert forall b: nat :: b in free' <==> b in free || b in low || b in middle;
  }

  /** The three bitmap blocks in question. */
  lemma SpanStarts(sb: Super, next: nat, d: nat)
    requires Spans(sb) >= 3 && next == (sb.nmeta / BPB + 2) * BPB && next - BPB <= d && d + 2 < next
    ensures BPB <= next <= sb.nmeta + 2 * BPB && sb.nmeta < next - BPB && next < sb.size
    ensures sb.nmeta / BPB < d / BPB < next / BPB
  {
  }

  /** A chunk of filewrite from such a state. */
  method WriteEdge(fs: FileSystem, ghost d: nat, ghost e: nat) returns (src: seq<Byte>, ghost ops: seq<Op>)
    requires fs.Sound() && Tight(fs.Now()) && Scattered(fs.sb, fs.Now(), fs.sb.nmeta, d, e)
    requires |fs.inodes| == 5 && fs.inodes[EDGED].size == EDGE && fs.inodestart < fs.sb.bmapstart
    modifies fs
    ensures fs.Sound() && |ops| == 1 && fs.Now() == ops[0].w && |fs.logged| > MAXOPBLOCKS && ops[0].r == CHUNK
    ensures |src| == CHUNK && OpsOk(fs.sb, fs.inodestart, old(fs.Now()), EDGED, src, EDGE, CHUNK, ops)
  {
    ghost var u := fs.Now();
    src := seq(CHUNK, _ => 0);
    EdgeRoom(fs.sb, u, src, d, e);
    ops := WriteOne(fs, EDGED, EDGE, src);
    EdgeChunk(fs.sb, fs.inodestart, u, fs.Now(), src, ops, d, e);
  }

  /** A filewrite of one chunk that finds everything it needs. */
  method WriteOne(fs: FileSystem, ino: nat, off: nat, src: seq<Byte>) returns (ghost ops: seq<Op>)
    requires fs.Sound() && ino < |fs.inodes| && off < WORD_LIMIT && |src| == CHUNK
    requires Writable(fs.sb, fs.Now(), ino, src, off, |src|)
    modifies fs
    ensures fs.Sound() && |ops| == 1 && fs.Now() == ops[0].w && ops[0].r == |src|
    ensures OpsOk(fs.sb, fs.inodestart, old(fs.Now()), ino, src, off, |src|, ops)
  {
    var ret, end;
    ghost var laid;
    ret, end, laid, ops := fs.Filewrite(ino, off, src, |src|);
    OneChunk(|src|, |ops|);
  }

  lemma OneChunk(n: nat, k: nat)
    requires n == CHUNK && k == (n + CHUNK - 1) / CHUNK
    ensures k == 1 && n - (k - 1) * CHUNK == n
  {
  }

  lemma EdgeRoom(sb: Super, u: View, src: seq<Byte>, d: nat, e: nat)
    requires
      && GoodView(sb, u) && Dense(u.inodes, u.addr) && Tight(u) && Scattered(sb, u, sb.nmeta, d, e) && |src| == CHUNK
    requires |u.inodes| == 5 && u.inodes[EDGED].size == EDGE
    ensures Writable(sb, u, EDGED, src, EDGE, CHUNK)
  {
    EdgePaths();
    EdgeAbsent(sb, u, EDGED);
    var slots := Touched(EDGE, EDGE + CHUNK);
    FiveFree(FreeSet(sb, u.blocks), sb.nmeta, d, e);
    assert |AbsentOf(u.addr, EDGED, slots)| == 5;
  }

  lemma FiveFree(free: set<nat>, c: nat, d: nat, e: nat)
    requires c < d && d + 2 < e && c in free && d in free && d + 1 in free && d + 2 in free && e in free
    ensures |free| >= 5
  {
    SubsetSize({c, d, d + 1, d + 2, e}, free);
  }

  lemma EdgeChunk(sb: Super, inodestart: nat, u: View, w: View, src: seq<Byte>, ops: seq<Op>, d: nat, e: nat)
    requires
      && GoodView(sb, u) && Dense(u.inodes, u.addr) && Tight(u) && Scattered(sb, u, sb.nmeta, d, e) && |src| == CHUNK
    requires
      && |u.inodes| == 5 && u.inodes[EDGED].size == EDGE && inodestart < sb.bmapstart && GoodView(sb, w)
      && Dense(w.inodes, w.addr)
    requires OpsOk(sb, inodestart, u, EDGED, src, EDGE, CHUNK, ops) && |ops| == 1 && w == ops[0].w && ops[0].r == CHUNK
    ensures |w.logged| >= 11
  {
    assert OpAt(sb, inodestart, u, EDGED, src, EDGE, CHUNK, ops, 0);
    var v, why := u.(logged := {}), ops[0].why;
    assert src[0 * CHUNK..] == src && inodestart + EDGED / IPB == inodestart;
    assert Outcome(sb, inodestart, v, w, EDGED, src, EDGE, CHUNK, CHUNK, why);
    EdgeTight(u, v);
    ElevenLogged(sb, inodestart, v, w, EDGED, src, why, sb.nmeta, d, e);
  }

  lemma EdgeTight(u: View, v: View)
    requires Tight(u) && v == u.(logged := {})
    ensures Tight(v)
  {
    forall pl
      ensures TightAt(v, pl)
    {
      assert TightAt(u, pl);
    }
  }

  /** What Sound says of a state. */
  ghost predicate SoundView(sb: Super, v: View) {
    GoodView(sb, v) && BootZero(v.blocks) && Dense(v.inodes, v.addr) && Snug(v.inodes, v.addr)
  }

  /** On every formatted disk whose files' bits lie in three or more bitmap blocks there is a sound state u,
      reached by calls, from which filewrite of one chunk, in one operation and with success, logs more
      blocks than the log reserves for it. */
  method OverBudget(sb: Super, inodestart: nat)
    returns (fs: FileSystem, src: seq<Byte>, ghost u: View, ghost ops: seq<Op>)
    requires GoodSuper(sb, sb.size) && Spans(sb) >= 3 && inodestart < sb.bmapstart
    ensures fs.sb == sb && fs.inodestart == inodestart && fs.Sound()
    ensures SoundView(sb, u) && EDGED < |u.inodes| && u.inodes[EDGED].size == EDGE && |src| == CHUNK
    ensures OpsOk(sb, inodestart, u, EDGED, src, EDGE, CHUNK, ops) && |ops| == 1 && ops[0].r == CHUNK
    ensures fs.Now() == ops[0].w && |ops[0].w.logged| > MAXOPBLOCKS
  {
    var next := (sb.nmeta / BPB + 2) * BPB;
    SpanStarts(sb, next, next - BPB);
    ghost var x;
    fs, x := MakeEdge(sb, inodestart);
    ghost var d := MakeGap(fs, x, next);
    SpanStarts(sb, next, d);
    OpenGap(fs, d, next);
    u := fs.Now();
    src, ops := WriteEdge(fs, d, next);
  }

  /** With at most two bitmap blocks for files, which a disk of 16384 blocks has, every operation of
      every filewrite stays within the reservation. */
  lemma WithinBudget(sb: Super, inodestart: nat, u: View, ino: nat, src: seq<Byte>, off: nat, n: nat, ops: seq<Op>,
                     k: nat)
    requires OpsOk(sb, inodestart, u, ino, src, off, n, ops) && k < |ops| && (Spans(sb) <= 2 || sb.size <= 2 * BPB)
    ensures |ops[k].w.logged| <= MAXOPBLOCKS
  {
    assert OpAt(sb, inodestart, u, ino, src, off, n, ops, k);
  }
}
