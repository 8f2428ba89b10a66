/** What the operations on inodes do to the file system's state, as relations between states:
    growth of one tree, bytes laid over one file, what is logged, and how they compose. */
module FsSteps {
  import opened Common
  import opened Blocks
  import opened Bitmap
  import opened FsTree
  import opened FsData
  import opened FsTrunc

  const IPB: nat := 16   // inodes per block

  // ----------------------------------------------------------- what bmap does

  function Absent(addr: Addrs, pl: Place): nat
    requires pl in addr
  {
    if addr[pl] == 0 then 1 else 0
  }

  predicate Has(addr: Addrs, ino: nat, s: Slot) { Place(ino, s) in addr }

  predicate OnPath(addr: Addrs, ino: nat, s: Slot) {
    && Has(addr, ino, s)
    && (s.IndLeaf? ==> Has(addr, ino, Ind))
    && (s.DblLeaf? ==> Has(addr, ino, Dbl) && Has(addr, ino, DblMid(s.j)))
  }

  /** How many blocks are missing on the way to a data slot. */
  ghost function Missing(addr: Addrs, ino: nat, s: Slot): nat
    requires OnPath(addr, ino, s)
  {
    match s
    case IndLeaf(_) => Absent(addr, Place(ino, Ind)) + Absent(addr, Place(ino, s))
    case DblLeaf(j, _) =>
      Absent(addr, Place(ino, Dbl)) + Absent(addr, Place(ino, DblMid(j))) + Absent(addr, Place(ino, s))
    case _ => Absent(addr, Place(ino, s))
  }

  /** What the operations read and write, as one value; `logged` is what log_write was told since
      the operation began. */
  datatype View = View(blocks: seq<Block>, inodes: seq<Inode>, addr: Addrs, owner: map<nat, Place>, logged: set<nat>)

  /** Addresses once set stay; only the given slots of ino may gain one. */
  ghost predicate Grew(addr: Addrs, addr': Addrs, ino: nat, slots: set<Slot>) {
    && (forall q :: q in addr' <==> q in addr)
    && (forall q {:trigger addr'[q]} ::
          q in addr && q in addr' && addr'[q] != addr[q] ==> addr[q] == 0 && q.ino == ino && q.slot in slots)
  }

  predicate Mine(owner: map<nat, Place>, ino: nat, slots: set<Slot>, b: nat) {
    b in owner && owner[b].ino == ino && owner[b].slot in slots
  }

  ghost predicate SameSizes(inodes: seq<Inode>, inodes': seq<Inode>) {
    |inodes'| == |inodes| && forall i :: 0 <= i < |inodes| ==> inodes'[i].size == inodes[i].size
  }

  ghost predicate OwnerKept(owner: map<nat, Place>, owner': map<nat, Place>) {
    forall b :: b in owner ==> b in owner' && owner'[b] == owner[b]
  }

  // ----------------------------------------------------------- what is logged

  /** Block c was given out between the two states. */
  ghost predicate Fresh(v: View, w: View, c: nat) { c in w.owner && c !in v.owner }

  /** The index block that names block c. */
  ghost predicate Names(w: View, c: nat, b: nat) {
    && c in w.owner && !IsTop(w.owner[c].slot)
    && var par := Place(w.owner[c].ino, Parent(w.owner[c].slot)); par in w.addr && b == w.addr[par] != 0
  }

  /** What is logged when block c is given out: c, its bitmap block, and the index block that names it. */
  ghost predicate LoggedFor(sb: Super, w: View, c: nat, b: nat) {
    b == c || b == BitBlock(sb.bmapstart, c) || Names(w, c, b)
  }

  ghost predicate Allocs(sb: Super, v: View, w: View, b: nat) {
    exists c :: Fresh(v, w, c) && LoggedFor(sb, w, c, b)
  }

  /** The index block that names a new block is present. */
  ghost predicate Rooted(v: View, w: View) {
    forall c {:trigger Fresh(v, w, c)} :: Fresh(v, w, c) && !IsTop(w.owner[c].slot) ==>
      && Has(w.addr, w.owner[c].ino, Parent(w.owner[c].slot))
      && w.addr[Place(w.owner[c].ino, Parent(w.owner[c].slot))] != 0
  }

  /** Block b hangs at slot s of ino. */
  ghost predicate HangsAt(w: View, ino: nat, s: Slot, b: nat) {
    Place(ino, s) in w.addr && b == w.addr[Place(ino, s)] != 0
  }

  ghost predicate At(w: View, ino: nat, written: set<Slot>, b: nat) {
    exists s :: s in written && HangsAt(w, ino, s, b)
  }

  ghost predicate AllPresent(addr: Addrs, ino: nat, slots: set<Slot>) {
    forall s {:trigger Place(ino, s)} :: s in slots ==> Place(ino, s) in addr && addr[Place(ino, s)] != 0
  }

  /** Exactly what is logged from one state to the next: what allocation logs, and the data blocks written. */
  ghost predicate Logs(sb: Super, v: View, w: View, ino: nat, written: set<Slot>) {
    && Rooted(v, w) && AllPresent(w.addr, ino, written)
    && forall b {:trigger b in w.logged} ::
         b in w.logged <==> b in v.logged || At(w, ino, written, b) || Allocs(sb, v, w, b)
  }

  lemma {:induction false} LogsTwice(sb: Super, u: View, v: View, w: View, ino: nat, slots: set<Slot>, wr: set<Slot>,
                                     wr': set<Slot>)
    requires
      && Logs(sb, u, v, ino, wr) && Logs(sb, v, w, ino, wr') && OwnerKept(u.owner, v.owner)
      && OwnerKept(v.owner, w.owner)
    requires Grew(v.addr, w.addr, ino, slots)
    ensures Logs(sb, u, w, ino, wr + wr')
  {
    forall c
      ensures Fresh(u, w, c) <==> Fresh(u, v, c) || Fresh(v, w, c)
    {
    }
    RootedTwice(u, v, w, ino, slots);
    assert AllPresent(w.addr, ino, wr) by {
      forall s | s in wr
        ensures w.addr[Place(ino, s)] == v.addr[Place(ino, s)] != 0
      {
      }
    }
    forall b
      ensures b in w.logged <==> b in u.logged || At(w, ino, wr + wr', b) || Allocs(sb, u, w, b)
    {
      AtTwice(v, w, ino, slots, wr, wr', b);
      AllocsTwice(sb, u, v, w, ino, slots, b);
    }
  }

  lemma RootedTwice(u: View, v: View, w: View, ino: nat, slots: set<Slot>)
    requires
      && Rooted(u, v) && Rooted(v, w) && OwnerKept(u.owner, v.owner) && OwnerKept(v.owner, w.owner)
      && Grew(v.addr, w.addr, ino, slots)
    ensures Rooted(u, w)
  {
    forall c | Fresh(u, w, c) && !IsTop(w.owner[c].slot)
      ensures
        && Has(w.addr, w.owner[c].ino, Parent(w.owner[c].slot))
        && w.addr[Place(w.owner[c].ino, Parent(w.owner[c].slot))] != 0
    {
      assert Fresh(u, v, c) || Fresh(v, w, c);
    }
  }

  /** An address once set is the same later. */
  lemma HangsStill(v: View, w: View, ino: nat, slots: set<Slot>, s: Slot, b: nat)
    requires Grew(v.addr, w.addr, ino, slots) && Place(ino, s) in v.addr && v.addr[Place(ino, s)] != 0
    ensures HangsAt(w, ino, s, b) <==> HangsAt(v, ino, s, b)
  {
    assert w.addr[Place(ino, s)] == v.addr[Place(ino, s)];
  }

  lemma AtTwice(v: View, w: View, ino: nat, slots: set<Slot>, wr: set<Slot>, wr': set<Slot>, b: nat)
    requires AllPresent(v.addr, ino, wr) && Grew(v.addr, w.addr, ino, slots)
    ensures At(w, ino, wr + wr', b) <==> At(v, ino, wr, b) || At(w, ino, wr', b)
  {
    forall s | s in wr
      ensures HangsAt(w, ino, s, b) <==> HangsAt(v, ino, s, b)
    {
      HangsStill(v, w, ino, slots, s, b);
    }
  }

  lemma AllocsTwice(sb: Super, u: View, v: View, w: View, ino: nat, slots: set<Slot>, b: nat)
    requires
      && Rooted(u, v) && OwnerKept(u.owner, v.owner) && OwnerKept(v.owner, w.owner) && Grew(v.addr, w.addr, ino, slots)
    ensures Allocs(sb, u, w, b) <==> Allocs(sb, u, v, b) || Allocs(sb, v, w, b)
  {
    forall c | Fresh(u, v, c)
      ensures Fresh(u, w, c) && (LoggedFor(sb, w, c, b) <==> LoggedFor(sb, v, c, b))
    {
      assert Names(w, c, b) <==> Names(v, c, b);
    }
    forall c | Fresh(v, w, c)
      ensures Fresh(u, w, c)
    {
    }
    forall c | Fresh(u, w, c)
      ensures Fresh(u, v, c) || Fresh(v, w, c)
    {
    }
  }

  // ------------------------------------------------------------------- growth

  /** The parts of a state an operation is described by. */
  datatype Aspect = Addresses | Contents | Sizes | Owners | Logging | Disk

  /** Blocks are given out from the lowest free one up, and none is freed. */
  ghost predicate LowestFirst(sb: Super, v: View, w: View) {
    && FreeSet(sb, w.blocks) <= FreeSet(sb, v.blocks)
    && (forall c: nat {:trigger Fresh(v, w, c)} :: Fresh(v, w, c) ==> c in FreeSet(sb, v.blocks))
    && (forall c: nat, d: nat {:trigger Fresh(v, w, c), d in FreeSet(sb, w.blocks)} ::
          Fresh(v, w, c) && d in FreeSet(sb, w.blocks) ==> c < d)
  }

  lemma LowestTwice(sb: Super, u: View, v: View, w: View)
    requires
      && LowestFirst(sb, u, v) && LowestFirst(sb, v, w) && OwnerKept(u.owner, v.owner) && OwnerKept(v.owner, w.owner)
    ensures LowestFirst(sb, u, w)
  {
    forall c | Fresh(u, w, c)
      ensures c in FreeSet(sb, u.blocks) && forall d :: d in FreeSet(sb, w.blocks) ==> c < d
    {
      assert Fresh(u, v, c) || Fresh(v, w, c);
    }
  }

  /** Growing the given slots of ino's tree and nothing else: no contents, size or other address differs. */
  ghost predicate Stepped(sb: Super, v: View, w: View, ino: nat, slots: set<Slot>) {
    forall k: Aspect {:trigger SteppedIn(sb, v, w, ino, slots, k)} :: SteppedIn(sb, v, w, ino, slots, k)
  }

  ghost predicate SteppedIn(sb: Super, v: View, w: View, ino: nat, slots: set<Slot>, k: Aspect) {
    match k
    case Addresses => Grew(v.addr, w.addr, ino, slots)
    case Contents => SameData(v.blocks, v.addr, w.blocks, w.addr)
    case Sizes => SameSizes(v.inodes, w.inodes)
    case Owners => OwnerKept(v.owner, w.owner) && LowestFirst(sb, v, w)
    case Logging => Logs(sb, v, w, ino, {})
    case Disk => |w.blocks| == |v.blocks| > 0 && w.blocks[0] == v.blocks[0]
  }

  /** The disk and the inode table keep their lengths, and the boot block its contents. */
  ghost predicate SameFrame(v: View, w: View) {
    |w.inodes| == |v.inodes| && |w.blocks| == |v.blocks| > 0 && w.blocks[0] == v.blocks[0]
  }

  lemma SteppedAll(sb: Super, v: View, w: View, ino: nat, slots: set<Slot>)
    requires Stepped(sb, v, w, ino, slots)
    ensures Grew(v.addr, w.addr, ino, slots) && SameData(v.blocks, v.addr, w.blocks, w.addr)
    ensures
      && SameSizes(v.inodes, w.inodes) && OwnerKept(v.owner, w.owner) && LowestFirst(sb, v, w)
      && Logs(sb, v, w, ino, {})
    ensures |w.blocks| == |v.blocks| > 0 && w.blocks[0] == v.blocks[0]
  {
    assert SteppedIn(sb, v, w, ino, slots, Addresses) && SteppedIn(sb, v, w, ino, slots, Contents);
    assert SteppedIn(sb, v, w, ino, slots, Sizes) && SteppedIn(sb, v, w, ino, slots, Owners);
    assert SteppedIn(sb, v, w, ino, slots, Logging) && SteppedIn(sb, v, w, ino, slots, Disk);
  }

  lemma SteppedTwice(sb: Super, u: View, v: View, w: View, ino: nat, slots: set<Slot>, more: set<Slot>, all: set<Slot>)
    requires Stepped(sb, u, v, ino, slots) && Stepped(sb, v, w, ino, more) && slots <= all && more <= all
    ensures Stepped(sb, u, w, ino, all)
  {
    SteppedAll(sb, u, v, ino, slots);
    SteppedAll(sb, v, w, ino, more);
    assert SameData(u.blocks, u.addr, w.blocks, w.addr) by {
      forall pl: Place | !IsIndex(pl.slot)
        ensures DataAt(w.blocks, w.addr, pl) == DataAt(u.blocks, u.addr, pl)
      {
        assert DataAt(w.blocks, w.addr, pl) == DataAt(v.blocks, v.addr, pl);
      }
    }
    GrewTwice(u.addr, v.addr, w.addr, ino, slots, more, all);
    LowestTwice(sb, u, v, w);
    var none: set<Slot> := {};
    LogsTwice(sb, u, v, w, ino, more, none, none);
    assert none + none == none;
  }

  lemma GrewTwice(a0: Addrs, a1: Addrs, a2: Addrs, ino: nat, slots: set<Slot>, more: set<Slot>, all: set<Slot>)
    requires Grew(a0, a1, ino, slots) && Grew(a1, a2, ino, more) && slots <= all && more <= all
    ensures Grew(a0, a2, ino, all)
  {
    forall q | q in a0 && q in a2 && a2[q] != a0[q]
      ensures a0[q] == 0 && q.ino == ino && q.slot in all
    {
      assert a2[q] != a1[q] || a1[q] != a0[q];
    }
  }

  lemma SteppedWider(sb: Super, v: View, w: View, ino: nat, slots: set<Slot>, all: set<Slot>)
    requires Stepped(sb, v, w, ino, slots) && slots <= all
    ensures Stepped(sb, v, w, ino, all)
  {
    SteppedAll(sb, v, w, ino, slots);
  }

  /** Nothing done is such a step. */
  lemma StayedPut(sb: Super, v: View, ino: nat, slots: set<Slot>)
    requires |v.blocks| > 0
    ensures Stepped(sb, v, v, ino, slots)
  {
  }

  /** Obtaining the block of one place: the one it has, else a new one while any is free. */
  ghost predicate Obtained(sb: Super, v: View, w: View, pl: Place, r: nat) {
    && pl in v.addr
    && if v.addr[pl] != 0 || FreeSet(sb, v.blocks) == {} then
         r == v.addr[pl] && w == v
       else
         && r != 0 && r in FreeSet(sb, v.blocks) && w.addr == v.addr[pl := r]
         && |FreeSet(sb, w.blocks)| == |FreeSet(sb, v.blocks)| - 1
  }

  /** The value bmap returns when it runs out of blocks, with `free` of them at the start:
      0, except that when the second-level block is the one that fails, block 0 is read in its place. */
  ghost function OutOfSpace(blocks: seq<Block>, addr: Addrs, ino: nat, s: Slot, free: nat): nat
    requires |blocks| > 0 && GoodSlot(s) && OnPath(addr, ino, s)
  {
    if !s.DblLeaf? then 0 else
    var dbl, mid := Absent(addr, Place(ino, Dbl)), Absent(addr, Place(ino, DblMid(s.j)));
    if dbl <= free < dbl + mid then GetWord(blocks[0], s.k) else 0
  }

  /** Bmap's outcome: with enough free blocks the slot's block, using up just what was missing;
      with too few, the slot stays absent and nothing is left free. */
  ghost predicate Mapped(sb: Super, v: View, w: View, ino: nat, s: Slot, r: nat) {
    && GoodSlot(s) && SameFrame(v, w)
    && (Has(v.addr, ino, s) && v.addr[Place(ino, s)] != 0 ==> w == v)
    && OnPath(v.addr, ino, s) && OnPath(w.addr, ino, s)
    && var free, missing := |FreeSet(sb, v.blocks)|, Missing(v.addr, ino, s);
       if free >= missing then
         r == w.addr[Place(ino, s)] != 0 && |FreeSet(sb, w.blocks)| == free - missing
       else
         && r == OutOfSpace(v.blocks, v.addr, ino, s, free)
         && w.addr[Place(ino, s)] == 0 && FreeSet(sb, w.blocks) == {}
  }

  /** Hanging one new block at pl is such a step. */
  lemma Hung(sb: Super, v: View, w: View, pl: Place, r: nat, slots: set<Slot>)
    requires pl in v.addr && v.addr[pl] == 0 && r !in v.owner && pl.slot in slots
    requires w.addr == v.addr[pl := r] && w.owner == v.owner[r := pl]
    requires !IsTop(pl.slot) ==> Has(v.addr, pl.ino, Parent(pl.slot)) && v.addr[Place(pl.ino, Parent(pl.slot))] != 0
    requires w.logged == v.logged + {BitBlock(sb.bmapstart, r), r}
                         + if IsTop(pl.slot) then {} else {v.addr[Place(pl.ino, Parent(pl.slot))]}
    requires r in FreeSet(sb, v.blocks) && FreeSet(sb, w.blocks) == FreeSet(sb, v.blocks) - {r}
    requires forall c :: c in FreeSet(sb, v.blocks) ==> r <= c
    requires SameData(v.blocks, v.addr, w.blocks, w.addr) && SameSizes(v.inodes, w.inodes)
    requires |w.blocks| == |v.blocks| > 0 && w.blocks[0] == v.blocks[0]
    ensures Stepped(sb, v, w, pl.ino, slots)
  {
    assert forall c :: Fresh(v, w, c) <==> c == r;
    forall b
      ensures Allocs(sb, v, w, b) <==> LoggedFor(sb, w, r, b)
    {
      assert Fresh(v, w, r);
    }
  }

  lemma TopStep(sb: Super, v: View, w: View, pl: Place, r: nat)
    requires GoodView(sb, v) && pl in v.addr && IsTop(pl.slot) && v.addr[pl] == 0
    requires r in FreeSet(sb, v.blocks) && (forall c :: c in FreeSet(sb, v.blocks) ==> r <= c)
    requires w.blocks == Allocated(sb, v.blocks, r)
    requires pl.ino < |v.inodes| && TopIndex(pl.slot) < |v.inodes[pl.ino].addrs|
    requires w.inodes == v.inodes[pl.ino := WithTop(v.inodes[pl.ino], TopIndex(pl.slot), r)]
    requires w.addr == v.addr[pl := r] && w.owner == v.owner[r := pl]
    requires w.logged == v.logged + {BitBlock(sb.bmapstart, r), r}
    ensures GoodView(sb, w) && Stepped(sb, v, w, pl.ino, {pl.slot}) && SameFrame(v, w)
  {
    GrowTop(sb, v.blocks, v.inodes, v.addr, v.owner, pl, r, w.blocks, w.inodes, w.addr);
    AllocatedFree(sb, v.blocks, r);
    Hung(sb, v, w, pl, r, {pl.slot});
  }

  lemma EntryStep(sb: Super, v: View, w: View, pl: Place, p: nat, r: nat)
    requires GoodView(sb, v) && pl in v.addr && !IsTop(pl.slot) && v.addr[pl] == 0
    requires p in v.owner && v.owner[p] == Place(pl.ino, Parent(pl.slot)) && p < |v.blocks| && GoodSlot(pl.slot)
    requires r in FreeSet(sb, v.blocks) && (forall c :: c in FreeSet(sb, v.blocks) ==> r <= c)
    requires w.blocks == Entered(Allocated(sb, v.blocks, r), p, WordIn(pl.slot), r)
    requires w.inodes == v.inodes && w.addr == v.addr[pl := r] && w.owner == v.owner[r := pl]
    requires w.logged == v.logged + {BitBlock(sb.bmapstart, r), r} + {p}
    ensures GoodView(sb, w) && Stepped(sb, v, w, pl.ino, {pl.slot, Parent(pl.slot)}) && SameFrame(v, w)
    ensures FreeSet(sb, w.blocks) == FreeSet(sb, Allocated(sb, v.blocks, r))
  {
    GrowWord(sb, v.blocks, v.inodes, v.addr, v.owner, pl, p, r, Allocated(sb, v.blocks, r), w.blocks, w.addr);
    AllocatedFree(sb, v.blocks, r);
    assert v.addr[v.owner[p]] == p != 0;
    Hung(sb, v, w, pl, r, {pl.slot, Parent(pl.slot)});
  }

  /** Word w of block p set to r. */
  function Entered(blocks: seq<Block>, p: nat, w: nat, r: nat): seq<Block>
    requires p < |blocks| && w < NWORDS && r < WORD_LIMIT
  {
    blocks[p := PutWord(blocks[p], w, r)]
  }

  lemma DirectMapped(sb: Super, v: View, w: View, ino: nat, s: Slot, r: nat)
    requires s.Direct? && GoodSlot(s) && SameFrame(v, w)
    requires Obtained(sb, v, w, Place(ino, s), r)
    ensures Mapped(sb, v, w, ino, s, r)
  {
  }

  lemma SingleMapped(sb: Super, u: View, v: View, w: View, ino: nat, s: Slot, p: nat, r: nat)
    requires s.IndLeaf? && GoodSlot(s) && SameFrame(u, w) && Has(u.addr, ino, s)
    requires Obtained(sb, u, v, Place(ino, Ind), p)
    requires u.addr[Place(ino, Ind)] == 0 ==> u.addr[Place(ino, s)] == 0
    requires if p == 0 then w == v && r == 0 else Obtained(sb, v, w, Place(ino, s), r)
    ensures Mapped(sb, u, w, ino, s, r)
  {
  }

  /** The outcome of obtaining the double-indirect block p and then its j-th second-level block q. */
  ghost predicate MidMapped(sb: Super, v: View, w: View, ino: nat, j: nat, p: nat, q: nat) {
    var dbl, mid := Place(ino, Dbl), Place(ino, DblMid(j));
    && dbl in v.addr && mid in v.addr && dbl in w.addr && mid in w.addr && p == w.addr[dbl] && q == w.addr[mid]
    && (forall k :: Has(v.addr, ino, DblLeaf(j, k)) ==>
          Has(w.addr, ino, DblLeaf(j, k)) && w.addr[Place(ino, DblLeaf(j, k))] == v.addr[Place(ino, DblLeaf(j, k))])
    && (v.addr[mid] != 0 ==> w == v)
    && var free, missing := |FreeSet(sb, v.blocks)|, Absent(v.addr, dbl) + Absent(v.addr, mid);
       if free >= missing then
         p != 0 && q != 0 && |FreeSet(sb, w.blocks)| == free - missing
       else
         v.addr[mid] == 0 && q == 0 && FreeSet(sb, w.blocks) == {} && (p != 0 <==> free >= Absent(v.addr, dbl))
  }

  lemma MidMappedBy(sb: Super, u: View, v: View, w: View, ino: nat, j: nat, p: nat, q: nat)
    requires Has(u.addr, ino, DblMid(j))
    requires Obtained(sb, u, v, Place(ino, Dbl), p)
    requires u.addr[Place(ino, Dbl)] == 0 ==> u.addr[Place(ino, DblMid(j))] == 0
    requires if p == 0 then w == v && q == 0 else Obtained(sb, v, w, Place(ino, DblMid(j)), q)
    ensures MidMapped(sb, u, w, ino, j, p, q)
  {
  }

  lemma DoubleMapped(sb: Super, u: View, v: View, w: View, ino: nat, s: Slot, p: nat, q: nat, r: nat)
    requires s.DblLeaf? && GoodSlot(s) && SameFrame(u, w) && Has(u.addr, ino, s)
    requires MidMapped(sb, u, v, ino, s.j, p, q)
    requires u.addr[Place(ino, DblMid(s.j))] == 0 ==> u.addr[Place(ino, s)] == 0
    requires if p == 0 then w == v && r == 0
             else if q == 0 then w == v && r == GetWord(w.blocks[0], s.k)
             else Obtained(sb, v, w, Place(ino, s), r)
    ensures Mapped(sb, u, w, ino, s, r)
  {
    assert Has(v.addr, ino, DblLeaf(s.j, s.k));
  }

  ghost predicate GoodView(sb: Super, v: View) {
    Ok(sb, v.blocks, v.inodes, v.addr, v.owner)
  }

  // --------------------------------------------------------------- truncation

  /** The first n addresses of ino are zeroed; nothing else differs. */
  ghost predicate ClearedTo(inodes: seq<Inode>, inodes': seq<Inode>, ino: nat, n: nat) {
    && |inodes'| == |inodes| && ino < |inodes|
    && (forall i :: 0 <= i < |inodes| && i != ino ==> inodes'[i] == inodes[i])
    && |inodes'[ino].addrs| == |inodes[ino].addrs| == NDIRECT + 2
    && (forall t :: 0 <= t < NDIRECT + 2 ==> inodes'[ino].addrs[t] == if t < n then 0 else inodes[ino].addrs[t])
  }

  lemma AllCleared(inodes: seq<Inode>, inodes': seq<Inode>, ino: nat)
    requires ClearedTo(inodes, inodes', ino, NDIRECT + 2)
    ensures inodes'[ino := inodes'[ino].(size := 0)] == inodes[ino := EmptyInode()]
  {
    assert inodes'[ino].addrs == EmptyInode().addrs;
  }

  predicate IsLeafIndex(s: Slot) { s.Ind? || s.DblMid? }

  function LeafOf(s: Slot, k: nat): Slot
    requires IsLeafIndex(s)
  {
    if s.Ind? then IndLeaf(k) else DblLeaf(s.j, k)
  }

  /** The boot block, which names no block. */
  ghost predicate BootZero(blocks: seq<Block>) {
    |blocks| > 0 && forall k: nat :: k < NWORDS ==> GetWord(blocks[0], k) == 0
  }

  ghost predicate TrimmedIn(sb: Super, v: View, blocks: seq<Block>, logged: set<nat>, ino: nat, t: nat, lost: bool,
                            bits: bool) {
    if bits then Released(sb, v.blocks, blocks, v.owner, ino, t, lost)
    else Recorded(sb, v.logged, logged, v.owner, ino, t, lost)
  }

  /** How far truncating ino has come: what is released below rank t, and what that logged. */
  ghost predicate Trimmed(sb: Super, v: View, blocks: seq<Block>, logged: set<nat>, ino: nat, t: nat, lost: bool) {
    forall bits: bool {:trigger TrimmedIn(sb, v, blocks, logged, ino, t, lost, bits)} ::
      TrimmedIn(sb, v, blocks, logged, ino, t, lost, bits)
  }

  lemma TrimmedAll(sb: Super, v: View, blocks: seq<Block>, logged: set<nat>, ino: nat, t: nat, lost: bool)
    requires Trimmed(sb, v, blocks, logged, ino, t, lost)
    ensures Released(sb, v.blocks, blocks, v.owner, ino, t, lost)
    ensures Recorded(sb, v.logged, logged, v.owner, ino, t, lost)
  {
    assert TrimmedIn(sb, v, blocks, logged, ino, t, lost, true);
    assert TrimmedIn(sb, v, blocks, logged, ino, t, lost, false);
  }

  lemma TrimSkip(sb: Super, v: View, blocks: seq<Block>, logged: set<nat>, ino: nat, t: nat, u: nat, lost: bool)
    requires GoodView(sb, v) && t <= u && AbsentRange(v.addr, ino, t, u)
    requires Trimmed(sb, v, blocks, logged, ino, t, lost)
    ensures Trimmed(sb, v, blocks, logged, ino, u, lost)
  {
    TrimmedAll(sb, v, blocks, logged, ino, t, lost);
    SkipAbsent(sb, v.blocks, blocks, v.addr, v.owner, ino, t, u, lost);
    RecordSkip(sb, v.logged, logged, v.addr, v.owner, ino, t, u, lost);
  }

  /** Truncation leaves the index blocks it reads. */
  lemma TrimKeeps(sb: Super, v: View, blocks: seq<Block>, logged: set<nat>, ino: nat, t: nat, lost: bool, pl: Place)
    requires GoodView(sb, v) && pl in v.addr && Trimmed(sb, v, blocks, logged, ino, t, lost)
    ensures v.addr[pl] < |blocks| == |v.blocks| && blocks[v.addr[pl]] == v.blocks[v.addr[pl]]
  {
    TrimmedAll(sb, v, blocks, logged, ino, t, lost);
    if v.addr[pl] != 0 {
      assert v.owner[v.addr[pl]] == pl;
    }
  }

  lemma TruncatedSizes(v: View, inodes: seq<Inode>, addr: Addrs, ino: nat)
    requires ino < |v.inodes| && inodes == v.inodes[ino := EmptyInode()] && addr == Emptied(v.addr, ino)
    ensures Dense(v.inodes, v.addr) ==> Dense(inodes, addr)
    ensures Snug(v.inodes, v.addr) ==> Snug(inodes, addr)
  {
    if Snug(v.inodes, v.addr) {
      forall pl
        ensures SnugAt(inodes, addr, pl)
      {
        assert SnugAt(v.inodes, v.addr, pl);
      }
    }
  }

  lemma Truncated(sb: Super, v: View, blocks: seq<Block>, inodes: seq<Inode>, addr: Addrs, owner: map<nat, Place>,
                  ino: nat, lost: bool)
    requires GoodView(sb, v) && Released(sb, v.blocks, blocks, v.owner, ino, LAST, lost)
    requires ino < |v.inodes| && inodes == v.inodes[ino := EmptyInode()]
    requires addr == Emptied(v.addr, ino) && owner == Disowned(v.owner, ino)
    ensures Refines(blocks, inodes, addr) && (!lost ==> Ok(sb, blocks, inodes, addr, owner))
    ensures FreeSet(sb, blocks) == FreeSet(sb, v.blocks) + Held(v.owner, ino) + (if lost then {0} else {})
    ensures forall pl: Place {:trigger DataAt(blocks, addr, pl)} ::
              pl.ino != ino ==> DataAt(blocks, addr, pl) == DataAt(v.blocks, v.addr, pl)
    ensures Dense(v.inodes, v.addr) ==> Dense(inodes, addr)
    ensures Snug(v.inodes, v.addr) ==> Snug(inodes, addr)
  {
    TruncatedSizes(v, inodes, addr, ino);
    EmptiedRefines(v.blocks, blocks, v.inodes, v.addr, v.owner, sb.nmeta, ino, inodes, addr);
    EmptiedOwned(v.addr, v.owner, sb.nmeta, sb.size, ino);
    EmptiedFree(sb, v.blocks, blocks, v.inodes, v.addr, v.owner, ino, lost);
    forall pl: Place | pl.ino != ino
      ensures DataAt(blocks, addr, pl) == DataAt(v.blocks, v.addr, pl)
    {
      if pl in v.addr && v.addr[pl] != 0 {
        assert v.owner[v.addr[pl]] == pl;
      }
    }
  }

  /** The whole tree visited and the addresses cleared: what is left to do is forget the size. */
  lemma EndTrunc(sb: Super, v: View, blocks: seq<Block>, inodes: seq<Inode>, logged: set<nat>, ino: nat, lost: bool)
    requires GoodView(sb, v) && ClearedTo(v.inodes, inodes, ino, NDIRECT + 2)
    requires Trimmed(sb, v, blocks, logged, ino, LAST, lost)
    ensures inodes[ino := inodes[ino].(size := 0)] == v.inodes[ino := EmptyInode()]
    ensures var inodes', addr, owner := v.inodes[ino := EmptyInode()], Emptied(v.addr, ino), Disowned(v.owner, ino);
      && Refines(blocks, inodes', addr) && (!lost ==> Ok(sb, blocks, inodes', addr, owner))
      && FreeSet(sb, blocks) == FreeSet(sb, v.blocks) + Held(v.owner, ino) + (if lost then {0} else {})
      && (forall pl: Place {:trigger DataAt(blocks, addr, pl)} ::
            pl.ino != ino ==> DataAt(blocks, addr, pl) == DataAt(v.blocks, v.addr, pl))
      && (Dense(v.inodes, v.addr) ==> Dense(inodes', addr)) && (Snug(v.inodes, v.addr) ==> Snug(inodes', addr))
    ensures |blocks| == |v.blocks| > 0 && blocks[0] == v.blocks[0]
    ensures logged == v.logged + HeldBits(sb, v.owner, ino) + if lost then {BitBlock(sb.bmapstart, 0)} else {}
  {
    TrimmedAll(sb, v, blocks, logged, ino, LAST, lost);
    AllCleared(v.inodes, inodes, ino);
    Truncated(sb, v, blocks, v.inodes[ino := EmptyInode()], Emptied(v.addr, ino), Disowned(v.owner, ino), ino, lost);
    RecordAll(sb, v.blocks, v.inodes, v.addr, v.owner, ino);
  }

  // ------------------------------------------------------------------ writing

  ghost predicate WroteIn(sb: Super, v: View, w: View, ino: nat, off: nat, bytes: seq<Byte>, slots: set<Slot>,
                          written: set<Slot>, k: Aspect) {
    match k
    case Addresses => Grew(v.addr, w.addr, ino, slots)
    case Contents => Overlaid(v.blocks, v.addr, w.blocks, w.addr, ino, off, bytes)
    case Sizes => SameSizes(v.inodes, w.inodes)
    case Owners => OwnerKept(v.owner, w.owner) && LowestFirst(sb, v, w)
    case Logging => Logs(sb, v, w, ino, written)
    case Disk => |w.blocks| == |v.blocks| > 0 && w.blocks[0] == v.blocks[0]
  }

  /** Bytes laid over ino's contents at off, growing nothing outside the given slots of ino's tree, and
      logging the written slots' blocks and what growing logs. */
  ghost predicate Wrote(sb: Super, v: View, w: View, ino: nat, off: nat, bytes: seq<Byte>, slots: set<Slot>,
                        written: set<Slot>) {
    forall k: Aspect {:trigger WroteIn(sb, v, w, ino, off, bytes, slots, written, k)} ::
      WroteIn(sb, v, w, ino, off, bytes, slots, written, k)
  }

  lemma WroteAll(sb: Super, v: View, w: View, ino: nat, off: nat, bytes: seq<Byte>, slots: set<Slot>,
                 written: set<Slot>)
    requires Wrote(sb, v, w, ino, off, bytes, slots, written)
    ensures Grew(v.addr, w.addr, ino, slots) && Overlaid(v.blocks, v.addr, w.blocks, w.addr, ino, off, bytes)
    ensures
      && SameSizes(v.inodes, w.inodes) && OwnerKept(v.owner, w.owner) && LowestFirst(sb, v, w)
      && Logs(sb, v, w, ino, written)
    ensures |w.blocks| == |v.blocks| > 0 && w.blocks[0] == v.blocks[0]
  {
    assert WroteIn(sb, v, w, ino, off, bytes, slots, written, Addresses);
    assert WroteIn(sb, v, w, ino, off, bytes, slots, written, Contents);
    assert WroteIn(sb, v, w, ino, off, bytes, slots, written, Sizes);
    assert WroteIn(sb, v, w, ino, off, bytes, slots, written, Owners);
    assert WroteIn(sb, v, w, ino, off, bytes, slots, written, Logging);
    assert WroteIn(sb, v, w, ino, off, bytes, slots, written, Disk);
  }

  /** What stays true of a state across such a step. */
  lemma WroteKeeps(sb: Super, v: View, w: View, ino: nat, off: nat, bytes: seq<Byte>, slots: set<Slot>,
                   written: set<Slot>, x: nat)
    requires Wrote(sb, v, w, ino, off, bytes, slots, written) && BootZero(v.blocks) && DenseTo(v.addr, ino, x)
    ensures BootZero(w.blocks) && |w.inodes| == |v.inodes| && DenseTo(w.addr, ino, x)
  {
    WroteAll(sb, v, w, ino, off, bytes, slots, written);
  }

  lemma SteppedWrote(sb: Super, v: View, w: View, ino: nat, off: nat, slots: set<Slot>)
    requires Stepped(sb, v, w, ino, slots)
    ensures Wrote(sb, v, w, ino, off, [], slots, {})
  {
    SteppedAll(sb, v, w, ino, slots);
    SameBytes(v.blocks, v.addr, w.blocks, w.addr, ino, off);
  }

  lemma WroteTwice(sb: Super, u: View, v: View, w: View, ino: nat, off: nat, o: nat, s: seq<Byte>, t: seq<Byte>,
                   slots: set<Slot>, more: set<Slot>, all: set<Slot>, wr: set<Slot>, wr': set<Slot>)
    requires Wrote(sb, u, v, ino, off, s, slots, wr) && Wrote(sb, v, w, ino, o, t, more, wr')
    requires slots <= all && more <= all && o == off + |s|
    ensures Wrote(sb, u, w, ino, off, s + t, all, wr + wr')
  {
    WroteAll(sb, u, v, ino, off, s, slots, wr);
    WroteAll(sb, v, w, ino, o, t, more, wr');
    OverlaidTwice(u.blocks, u.addr, v.blocks, v.addr, w.blocks, w.addr, ino, off, s, t);
    GrewTwice(u.addr, v.addr, w.addr, ino, slots, more, all);
    LowestTwice(sb, u, v, w);
    LogsTwice(sb, u, v, w, ino, more, wr, wr');
  }

  /** Block b with the chunk copied in at r. */
  function Stored(blocks: seq<Block>, b: nat, r: nat, chunk: seq<Byte>): seq<Block>
    requires b < |blocks| && r + |chunk| <= BSIZE
  {
    blocks[b := Splice(blocks[b], r, chunk)]
  }

  /** The copy alone: one data block, logged if the chunk is whole. */
  lemma CopyWrote(sb: Super, v: View, w: View, ino: nat, o: nat, chunk: seq<Byte>, b: nat, whole: bool)
    requires o < MAXSIZE && o % BSIZE + |chunk| <= BSIZE && GoodView(sb, v)
    requires Home(ino, o / BSIZE) in v.addr && v.addr[Home(ino, o / BSIZE)] == b && 0 < b < |v.blocks|
    requires
      && w.blocks == Stored(v.blocks, b, o % BSIZE, chunk) && w.inodes == v.inodes && w.addr == v.addr
      && w.owner == v.owner
    requires w.logged == v.logged + if whole then {b} else {}
    ensures GoodView(sb, w)
    ensures Wrote(sb, v, w, ino, o, chunk, Path(SlotOf(o / BSIZE)), if whole then {SlotOf(o / BSIZE)} else {})
  {
    var pl := Home(ino, o / BSIZE);
    ChunkStored(v.blocks, v.addr, v.owner, sb.nmeta, ino, o, chunk, w.blocks);
    StoreOk(sb, v.blocks, v.inodes, v.addr, v.owner, pl, w.blocks[b], w.blocks);
    assert v.owner[b] == pl;
    var wr := if whole then {pl.slot} else {};
    forall x
      ensures At(w, ino, wr, x) <==> whole && x == b
    {
      if whole && x == b {
        assert HangsAt(w, ino, pl.slot, x);
      }
    }
  }

  lemma ChunkWrote(sb: Super, u: View, v: View, w: View, ino: nat, o: nat, chunk: seq<Byte>, b: nat, whole: bool)
    requires o < MAXSIZE && o % BSIZE + |chunk| <= BSIZE && GoodView(sb, v)
    requires Wrote(sb, u, v, ino, o, [], Path(SlotOf(o / BSIZE)), {})
    requires Home(ino, o / BSIZE) in v.addr && v.addr[Home(ino, o / BSIZE)] == b && 0 < b < |v.blocks|
    requires
      && w.blocks == Stored(v.blocks, b, o % BSIZE, chunk) && w.inodes == v.inodes && w.addr == v.addr
      && w.owner == v.owner
    requires w.logged == v.logged + if whole then {b} else {}
    ensures GoodView(sb, w)
    ensures Wrote(sb, u, w, ino, o, chunk, Path(SlotOf(o / BSIZE)), if whole then {SlotOf(o / BSIZE)} else {})
  {
    var path, wr := Path(SlotOf(o / BSIZE)), if whole then {SlotOf(o / BSIZE)} else {};
    CopyWrote(sb, v, w, ino, o, chunk, b, whole);
    WroteTwice(sb, u, v, w, ino, o, o, [], chunk, path, path, path, {}, wr);
    assert [] + chunk == chunk && {} + wr == wr;
  }

  function Min(a: nat, b: nat): nat { if a <= b then a else b }

  /** Why writei's loop ended. */
  datatype Stop = Done | NoSpace | Fault

  /** Done: everything asked for. NoSpace: the disk is full and the block at tot has no place.
      Fault: the source ended within the chunk at tot. */
  ghost predicate Stopped(sb: Super, w: View, ino: nat, src: seq<Byte>, off: nat, n: nat, tot: nat, why: Stop) {
    && tot <= |src| && off + n <= MAXSIZE
    && match why
       case Done => tot == n
       case NoSpace =>
         && tot < n && FreeSet(sb, w.blocks) == {}
         && Home(ino, (off + tot) / BSIZE) in w.addr && w.addr[Home(ino, (off + tot) / BSIZE)] == 0
       case Fault => tot < n && |src| < tot + ChunkLen(off + tot, n - tot)
  }

  /** The bytes that reached the file: those reported, and after a fault the readable rest of the failed chunk. */
  function Laid(src: seq<Byte>, tot: nat, why: Stop): seq<Byte>
    requires tot <= |src|
  {
    if why.Fault? then src else src[..tot]
  }

  lemma WroteNothing(sb: Super, v: View, ino: nat, off: nat, slots: set<Slot>)
    requires |v.blocks| > 0
    ensures Wrote(sb, v, v, ino, off, [], slots, {})
  {
    StayedPut(sb, v, ino, slots);
    SteppedWrote(sb, v, v, ino, off, slots);
  }

  /** writei's loop after tot bytes, each round complete. */
  ghost predicate ProgressIn(sb: Super, u: View, w: View, ino: nat, src: seq<Byte>, off: nat, tot: nat, k: Aspect) {
    && tot <= |src|
    && match k
       case Contents => Wrote(sb, u, w, ino, off, src[..tot], Touched(off, off + tot), DataSlots(off, off + tot))
       case Addresses => DenseTo(w.addr, ino, off + tot)
       case _ => BootZero(w.blocks) && |w.inodes| == |u.inodes|
  }

  ghost predicate Progress(sb: Super, u: View, w: View, ino: nat, src: seq<Byte>, off: nat, tot: nat) {
    forall k: Aspect {:trigger ProgressIn(sb, u, w, ino, src, off, tot, k)} ::
      ProgressIn(sb, u, w, ino, src, off, tot, k)
  }

  lemma ProgressAll(sb: Super, u: View, w: View, ino: nat, src: seq<Byte>, off: nat, tot: nat)
    requires Progress(sb, u, w, ino, src, off, tot)
    ensures tot <= |src| && BootZero(w.blocks) && |w.inodes| == |u.inodes| && DenseTo(w.addr, ino, off + tot)
    ensures Wrote(sb, u, w, ino, off, src[..tot], Touched(off, off + tot), DataSlots(off, off + tot))
  {
    assert ProgressIn(sb, u, w, ino, src, off, tot, Contents) && ProgressIn(sb, u, w, ino, src, off, tot, Addresses);
    assert ProgressIn(sb, u, w, ino, src, off, tot, Disk);
  }

  lemma ProgressFirst(sb: Super, u: View, ino: nat, src: seq<Byte>, off: nat)
    requires BootZero(u.blocks) && DenseTo(u.addr, ino, off)
    ensures Progress(sb, u, u, ino, src, off, 0)
  {
    WroteNothing(sb, u, ino, off, Touched(off, off));
    assert src[..0] == [];
  }

  /** writei's loop once it has ended, for the given reason. */
  ghost predicate EndedIn(sb: Super, u: View, w: View, ino: nat, src: seq<Byte>, off: nat, n: nat, tot: nat, why: Stop,
                          k: Aspect) {
    && tot <= |src| && tot <= n
    && match k
       case Contents => Wrote(sb, u, w, ino, off, Laid(src, tot, why), Reached(off, n, tot), DataSlots(off, off + tot))
       case Addresses => DenseTo(w.addr, ino, off + tot)
       case _ => Stopped(sb, w, ino, src, off, n, tot, why) && |w.inodes| == |u.inodes|
  }

  ghost predicate Ended(sb: Super, u: View, w: View, ino: nat, src: seq<Byte>, off: nat, n: nat, tot: nat, why: Stop) {
    forall k: Aspect {:trigger EndedIn(sb, u, w, ino, src, off, n, tot, why, k)} ::
      EndedIn(sb, u, w, ino, src, off, n, tot, why, k)
  }

  lemma EndedAll(sb: Super, u: View, w: View, ino: nat, src: seq<Byte>, off: nat, n: nat, tot: nat, why: Stop)
    requires Ended(sb, u, w, ino, src, off, n, tot, why)
    ensures tot <= |src| && tot <= n && |w.inodes| == |u.inodes| && DenseTo(w.addr, ino, off + tot)
    ensures Stopped(sb, w, ino, src, off, n, tot, why)
    ensures Wrote(sb, u, w, ino, off, Laid(src, tot, why), Reached(off, n, tot), DataSlots(off, off + tot))
  {
    assert EndedIn(sb, u, w, ino, src, off, n, tot, why, Contents);
    assert EndedIn(sb, u, w, ino, src, off, n, tot, why, Addresses);
    assert EndedIn(sb, u, w, ino, src, off, n, tot, why, Disk);
  }

  /** Nothing is left to write. */
  lemma EndedWhole(sb: Super, u: View, w: View, ino: nat, src: seq<Byte>, off: nat, n: nat)
    requires Progress(sb, u, w, ino, src, off, n) && off + n <= MAXSIZE
    ensures Ended(sb, u, w, ino, src, off, n, n, Done)
  {
    ProgressAll(sb, u, w, ino, src, off, n);
  }

  lemma ProgressBy(sb: Super, u: View, w: View, ino: nat, src: seq<Byte>, off: nat, tot: nat, done: seq<Byte>,
                   slots: set<Slot>, written: set<Slot>)
    requires tot <= |src| && BootZero(w.blocks) && |w.inodes| == |u.inodes| && DenseTo(w.addr, ino, off + tot)
    requires done == src[..tot] && slots == Touched(off, off + tot) && written == DataSlots(off, off + tot)
    requires Wrote(sb, u, w, ino, off, done, slots, written)
    ensures Progress(sb, u, w, ino, src, off, tot)
  {
  }

  lemma JoinSlices(src: seq<Byte>, i: nat, j: nat)
    requires i <= j <= |src|
    ensures src[..i] + src[i..j] == src[..j]
  {
  }

  /** A round whose chunk was written in full. */
  lemma RoundFull(sb: Super, u: View, v: View, w: View, ino: nat, src: seq<Byte>, off: nat, tot: nat, m: nat,
                  chunk: seq<Byte>, o: nat)
    requires
      && tot + m <= |src| && 0 < m && o == off + tot && o + m <= MAXSIZE && o % BSIZE + m <= BSIZE
      && chunk == src[tot..tot + m]
    requires Progress(sb, u, v, ino, src, off, tot)
    requires Wrote(sb, v, w, ino, o, chunk, Path(SlotOf(o / BSIZE)), {SlotOf(o / BSIZE)})
    requires Home(ino, o / BSIZE) in w.addr && w.addr[Home(ino, o / BSIZE)] != 0
    ensures Progress(sb, u, w, ino, src, off, tot + m)
  {
    var next := tot + m;
    var all, written := Touched(off, off + next), DataSlots(off, off + next);
    RoundWrote(sb, u, v, w, ino, src, off, tot, m, chunk, o, src[..next], all, written);
    ProgressBy(sb, u, w, ino, src, off, next, src[..next], all, written);
  }

  lemma RoundWrote(sb: Super, u: View, v: View, w: View, ino: nat, src: seq<Byte>, off: nat, tot: nat, m: nat,
                   chunk: seq<Byte>, o: nat, done: seq<Byte>, all: set<Slot>, written: set<Slot>)
    requires
      && tot + m <= |src| && 0 < m && o == off + tot && o + m <= MAXSIZE && o % BSIZE + m <= BSIZE
      && chunk == src[tot..tot + m] && done == src[..tot + m]
    requires all == Touched(off, o + m) && written == DataSlots(off, o + m)
    requires Progress(sb, u, v, ino, src, off, tot)
    requires Wrote(sb, v, w, ino, o, chunk, Path(SlotOf(o / BSIZE)), {SlotOf(o / BSIZE)})
    requires Home(ino, o / BSIZE) in w.addr && w.addr[Home(ino, o / BSIZE)] != 0
    ensures Wrote(sb, u, w, ino, off, done, all, written) && DenseTo(w.addr, ino, o + m)
    ensures BootZero(w.blocks) && |w.inodes| == |u.inodes|
  {
    var s := SlotOf(o / BSIZE);
    JoinSlices(src, tot, tot + m);
    ProgressAll(sb, u, v, ino, src, off, tot);
    WroteKeeps(sb, v, w, ino, o, chunk, Path(s), {s}, o);
    var slots, wr := Touched(off, o), DataSlots(off, o);
    FullSlots(off, o, m, slots, Path(s), all, wr, written);
    WroteOn(sb, u, v, w, ino, off, o, src[..tot], chunk, done, slots, Path(s), all, wr, {s}, written);
    DenseChunk(w.addr, ino, o, m);
  }

  /** A round that stopped, with what little of the chunk was laid. */
  lemma RoundShort(sb: Super, u: View, v: View, w: View, ino: nat, src: seq<Byte>, off: nat, tot: nat, n: nat,
                   rest: seq<Byte>, why: Stop, o: nat)
    requires tot < n && off + n <= MAXSIZE && !why.Done? && o == off + tot && Progress(sb, u, v, ino, src, off, tot)
    requires
      && tot <= |src| && rest == (if why.Fault? then src[tot..] else []) && Stopped(sb, w, ino, src, off, n, tot, why)
    requires Wrote(sb, v, w, ino, o, rest, Path(SlotOf(o / BSIZE)), {})
    ensures Ended(sb, u, w, ino, src, off, n, tot, why)
  {
    var s, laid := SlotOf(o / BSIZE), Laid(src, tot, why);
    ProgressAll(sb, u, v, ino, src, off, tot);
    WroteKeeps(sb, v, w, ino, o, rest, Path(s), {}, o);
    assert laid == src[..tot] + rest;
    var slots, all := Touched(off, off + tot), Reached(off, n, tot);
    ShortSlots(off, n, tot, o, slots, Path(s), all);
    var wr := DataSlots(off, off + tot);
    WroteOn(sb, u, v, w, ino, off, o, src[..tot], rest, laid, slots, Path(s), all, wr, {}, wr);
  }

  lemma FullSlots(off: nat, o: nat, m: nat, slots: set<Slot>, path: set<Slot>, all: set<Slot>, wr: set<Slot>,
                  written: set<Slot>)
    requires
      && off <= o && 0 < m && o + m <= MAXSIZE && o % BSIZE + m <= BSIZE && slots == Touched(off, o)
      && all == Touched(off, o + m)
    requires path == Path(SlotOf(o / BSIZE)) && wr == DataSlots(off, o) && written == DataSlots(off, o + m)
    ensures slots <= all && path <= all && written == wr + {SlotOf(o / BSIZE)}
  {
    RoundSlots(off, o, m);
  }

  lemma ShortSlots(off: nat, n: nat, tot: nat, o: nat, slots: set<Slot>, path: set<Slot>, all: set<Slot>)
    requires tot < n && off + n <= MAXSIZE && o == off + tot
    requires slots == Touched(off, o) && path == Path(SlotOf(o / BSIZE)) && all == Reached(off, n, tot)
    ensures slots <= all && path <= all
  {
    RoundSlots(off, o, ChunkLen(o, n - tot));
  }

  lemma WroteOn(sb: Super, u: View, v: View, w: View, ino: nat, off: nat, o: nat, s: seq<Byte>, t: seq<Byte>,
                laid: seq<Byte>, slots: set<Slot>, more: set<Slot>, all: set<Slot>, wr: set<Slot>, wr': set<Slot>,
                written: set<Slot>)
    requires Wrote(sb, u, v, ino, off, s, slots, wr) && Wrote(sb, v, w, ino, o, t, more, wr') && laid == s + t
    requires slots <= all && more <= all && o == off + |s| && written == wr + wr'
    ensures Wrote(sb, u, w, ino, off, laid, all, written)
  {
    WroteTwice(sb, u, v, w, ino, off, o, s, t, slots, more, all, wr, wr');
  }

  /** The slots on the way to the blocks between offsets off and x. */
  function Touched(off: nat, x: nat): set<Slot> { Paths(off / BSIZE, Ceil(x)) }

  /** The slots on the way to the blocks a write visits that stops at tot of n bytes. */
  function Reached(off: nat, n: nat, tot: nat): set<Slot> {
    if tot == n then Touched(off, off + n) else Paths(off / BSIZE, (off + tot) / BSIZE + 1)
  }

  /** The data slots of the bytes from off to x. */
  function DataSlots(off: nat, x: nat): set<Slot> {
    if off >= x || x > MAXSIZE then {} else set bn: nat | off / BSIZE <= bn < Ceil(x) :: SlotOf(bn)
  }

  /** How much of the remaining bytes fits the block of offset o. */
  function ChunkLen(o: nat, left: nat): (m: nat)
    requires left > 0
    ensures 0 < m <= left && o % BSIZE + m <= BSIZE
  {
    Min(left, BSIZE - o % BSIZE)
  }

  lemma RoundSlots(off: nat, o: nat, m: nat)
    requires off <= o && 0 < m && o + m <= MAXSIZE && o % BSIZE + m <= BSIZE
    ensures Touched(off, o) <= Touched(off, o + m) && Path(SlotOf(o / BSIZE)) <= Touched(off, o + m)
    ensures DataSlots(off, o + m) == DataSlots(off, o) + {SlotOf(o / BSIZE)}
    ensures Touched(off, o + m) == Paths(off / BSIZE, o / BSIZE + 1)
  {
    CeilChunk(o, m);
    CeilUp(off, o);
    RoundPaths(off / BSIZE, Ceil(o), o / BSIZE);
    DataSlotsMore(off, o, m);
  }

  lemma RoundPaths(lo: nat, c: nat, bn: nat)
    requires lo <= bn < MAXFILE && c <= bn + 1
    ensures Paths(lo, c) <= Paths(lo, bn + 1) && Path(SlotOf(bn)) <= Paths(lo, bn + 1)
  {
    PathsUp(lo, c, bn + 1);
    PathsHas(lo, bn);
  }

  lemma DataSlotsMore(off: nat, o: nat, m: nat)
    requires off <= o && 0 < m && o + m <= MAXSIZE && o % BSIZE + m <= BSIZE
    ensures DataSlots(off, o + m) == DataSlots(off, o) + {SlotOf(o / BSIZE)}
  {
    CeilChunk(o, m);
    var lo, bn := off / BSIZE, o / BSIZE;
    assert lo <= bn < MAXFILE && bn <= Ceil(o) <= bn + 1 == Ceil(o + m);
    forall s
      ensures s in DataSlots(off, o + m) <==> s in DataSlots(off, o) || s == SlotOf(bn)
    {
      if s == SlotOf(bn) {
        assert lo <= bn < Ceil(o + m);
      }
      if s in DataSlots(off, o + m) && s !in DataSlots(off, o) {
        var c: nat :| lo <= c < Ceil(o + m) && s == SlotOf(c);
        assert off == o || c >= Ceil(o);
      }
    }
  }

  lemma ReachedWithin(off: nat, n: nat, tot: nat)
    requires tot <= n && off + n <= MAXSIZE
    ensures Reached(off, n, tot) <= Touched(off, off + n) && DataSlots(off, off + tot) <= Touched(off, off + n)
  {
    if tot < n {
      PathsUp(off / BSIZE, (off + tot) / BSIZE + 1, Ceil(off + n));
    }
    if 0 < tot {
      forall bn: nat | off / BSIZE <= bn < Ceil(off + tot)
        ensures SlotOf(bn) in Touched(off, off + n)
      {
        PathsHas(off / BSIZE, bn);
        PathsUp(off / BSIZE, bn + 1, Ceil(off + n));
      }
    }
  }

  function Max(a: nat, b: nat): nat { if a <= b then b else a }

  /** Inode ino has the new size; other inodes keep theirs. */
  ghost predicate Resized(inodes: seq<Inode>, inodes': seq<Inode>, ino: nat, size: nat) {
    && |inodes'| == |inodes| && ino < |inodes| && inodes'[ino].size == size
    && (forall i :: 0 <= i < |inodes| && i != ino ==> inodes'[i].size == inodes[i].size)
  }

  /** Sizes play no part in the block trees. */
  lemma SizeRefines(blocks: seq<Block>, inodes: seq<Inode>, inodes': seq<Inode>, addr: Addrs)
    requires Refines(blocks, inodes, addr) && |inodes'| == |inodes|
    requires forall i :: 0 <= i < |inodes| ==> inodes'[i].addrs == inodes[i].addrs
    ensures Refines(blocks, inodes', addr)
  {
    forall pl | pl in addr
      ensures AddrAt(blocks, inodes', pl) == AddrAt(blocks, inodes, pl)
    {
    }
  }

  lemma WroteSound(sb: Super, u: View, v: View, inodes': seq<Inode>, ino: nat, off: nat, n: nat, r: nat,
                   laid: seq<Byte>, written: set<Slot>)
    requires
      && GoodView(sb, v) && BootZero(u.blocks) && Dense(u.inodes, u.addr) && Snug(u.inodes, u.addr)
      && ino < |u.inodes| == |v.inodes|
    requires off <= u.inodes[ino].size && r <= n && off + n <= MAXSIZE && DenseTo(v.addr, ino, off + r)
    requires Wrote(sb, u, v, ino, off, laid, Reached(off, n, r), written)
    requires inodes'
      == if off + r > u.inodes[ino].size then v.inodes[ino := v.inodes[ino].(size := off + r)] else v.inodes
    ensures
      && Ok(sb, v.blocks, inodes', v.addr, v.owner) && BootZero(v.blocks) && Dense(inodes', v.addr)
      && Snug(inodes', v.addr)
    ensures Resized(u.inodes, inodes', ino, Max(u.inodes[ino].size, off + r))
  {
    WroteAll(sb, u, v, ino, off, laid, Reached(off, n, r), written);
    SizeRefines(v.blocks, v.inodes, inodes', v.addr);
    assert Resized(u.inodes, inodes', ino, Max(u.inodes[ino].size, off + r));
    forall i: nat, bn: nat | i < |inodes'| && bn < MAXFILE && bn * BSIZE < inodes'[i].size
      ensures Home(i, bn) in v.addr && v.addr[Home(i, bn)] != 0
    {
      if bn * BSIZE < u.inodes[i].size {
        assert u.addr[Home(i, bn)] != 0;
      }
    }
    GrewSnug(u.inodes, u.addr, inodes', v.addr, ino, off, n, r);
  }

  lemma GrewSnug(inodes: seq<Inode>, addr: Addrs, inodes': seq<Inode>, addr': Addrs, ino: nat, off: nat, n: nat, r: nat)
    requires
      && Snug(inodes, addr) && Grew(addr, addr', ino, Reached(off, n, r)) && r <= n && off + n <= MAXSIZE
      && ino < |inodes|
    requires off <= inodes[ino].size && Resized(inodes, inodes', ino, Max(inodes[ino].size, off + r))
    ensures Snug(inodes', addr')
  {
    forall pl
      ensures SnugAt(inodes', addr', pl)
    {
      if pl in addr' && addr'[pl] != 0 && pl.ino < |inodes'| {
        if addr[pl] == 0 {
          assert addr'[pl] != addr[pl];
          PathsFirst(off / BSIZE, if r == n then Ceil(off + n) else (off + r) / BSIZE + 1, pl.slot);
        } else {
          assert SnugAt(inodes, addr, pl);
        }
      }
    }
  }

  // ---------------------------------------------------------- room on the disk

  /** Distinct blocks of one tree sit at distinct slots. */
  lemma {:induction false} MineSize(addr: Addrs, owner: map<nat, Place>, lo: nat, hi: nat, ino: nat, slots: set<Slot>,
                                    bs: set<nat>)
    requires Owned(addr, owner, lo, hi) && forall b :: b in bs ==> Mine(owner, ino, slots, b)
    ensures |bs| <= |slots|
    decreases |bs|
  {
    if bs == {} {
      return;
    }
    var b :| b in bs;
    assert Mine(owner, ino, slots, b);
    var s := owner[b].slot;
    forall c | c in bs - {b}
      ensures Mine(owner, ino, slots - {s}, c)
    {
      assert addr[owner[b]] == b && addr[owner[c]] == c;
    }
    MineSize(addr, owner, lo, hi, ino, slots - {s}, bs - {b});
  }

  /** Distinct slots hold distinct blocks. */
  lemma {:induction false} SlotsSize(addr: Addrs, owner: map<nat, Place>, lo: nat, hi: nat, ino: nat, slots: set<Slot>,
                                     bs: set<nat>)
    requires Owned(addr, owner, lo, hi) && AllPresent(addr, ino, slots)
    requires forall s {:trigger Place(ino, s)} :: s in slots ==> addr[Place(ino, s)] in bs
    ensures |slots| <= |bs|
    decreases |slots|
  {
    if slots == {} {
      return;
    }
    var s :| s in slots;
    var b := addr[Place(ino, s)];
    forall t | t in slots - {s}
      ensures addr[Place(ino, t)] in bs - {b}
    {
      assert owner[addr[Place(ino, t)]] == Place(ino, t) && owner[b] == Place(ino, s);
    }
    SlotsSize(addr, owner, lo, hi, ino, slots - {s}, bs - {b});
  }

  /** The slots of ino that hold no block. */
  ghost function AbsentOf(addr: Addrs, ino: nat, slots: set<Slot>): set<Slot> {
    set s | s in slots && Has(addr, ino, s) && addr[Place(ino, s)] == 0
  }

  ghost function FreshSet(v: View, w: View): (f: set<nat>)
    ensures forall c :: c in f <==> Fresh(v, w, c)
  {
    set c | c in w.owner && c !in v.owner
  }

  /** Each block given out is one free block less and one absent slot less. */
  lemma FreshCount(sb: Super, v: View, w: View, ino: nat, slots: set<Slot>)
    requires GoodView(sb, v) && GoodView(sb, w) && Grew(v.addr, w.addr, ino, slots) && OwnerKept(v.owner, w.owner)
    ensures FreeSet(sb, v.blocks) == FreeSet(sb, w.blocks) + FreshSet(v, w) && FreeSet(sb, w.blocks) !! FreshSet(v, w)
    ensures |FreshSet(v, w)| == |AbsentOf(v.addr, ino, slots) - AbsentOf(w.addr, ino, slots)|
  {
    var given, gained := FreshSet(v, w), AbsentOf(v.addr, ino, slots) - AbsentOf(w.addr, ino, slots);
    forall c | c in given
      ensures sb.nmeta <= c < sb.size && Mine(w.owner, ino, gained, c)
    {
      var pl := w.owner[c];
      assert w.addr[pl] == c;
      assert v.addr[pl] != c;
      assert Has(v.addr, ino, pl.slot) && Has(w.addr, ino, pl.slot);
    }
    FreeSplit(sb, v, w);
    MineSize(w.addr, w.owner, sb.nmeta, sb.size, ino, gained, given);
    forall s | s in gained
      ensures Place(ino, s) in w.addr && w.addr[Place(ino, s)] != 0 && w.addr[Place(ino, s)] in given
    {
      assert Has(v.addr, ino, s) && Has(w.addr, ino, s);
      var b := w.addr[Place(ino, s)];
      assert b != 0 && w.owner[b] == Place(ino, s);
    }
    SlotsSize(w.addr, w.owner, sb.nmeta, sb.size, ino, gained, given);
  }

  lemma FreeSplit(sb: Super, v: View, w: View)
    requires GoodView(sb, v) && GoodView(sb, w) && OwnerKept(v.owner, w.owner)
    requires forall c :: c in FreshSet(v, w) ==> sb.nmeta <= c < sb.size
    ensures FreeSet(sb, v.blocks) == FreeSet(sb, w.blocks) + FreshSet(v, w) && FreeSet(sb, w.blocks) !! FreshSet(v, w)
  {
    forall c: nat | c < sb.size
      ensures (c in FreeSet(sb, v.blocks) <==> c >= sb.nmeta && c !in v.owner)
      ensures (c in FreeSet(sb, w.blocks) <==> c >= sb.nmeta && c !in w.owner)
    {
      assert Marked(v.blocks, sb.bmapstart, c) <==> c < sb.nmeta || c in v.owner;
      assert Marked(w.blocks, sb.bmapstart, c) <==> c < sb.nmeta || c in w.owner;
    }
  }

  /** A full disk with a slot still absent: there was too little room. With no slot absent, enough. */
  lemma RoomExact(sb: Super, v: View, w: View, ino: nat, slots: set<Slot>, all: set<Slot>)
    requires
      && GoodView(sb, v) && GoodView(sb, w) && Grew(v.addr, w.addr, ino, slots) && OwnerKept(v.owner, w.owner)
      && slots <= all
    ensures AbsentOf(w.addr, ino, all) == {} ==> |AbsentOf(v.addr, ino, all)| <= |FreeSet(sb, v.blocks)|
    ensures FreeSet(sb, w.blocks) == {} && AbsentOf(w.addr, ino, all) != {} ==>
      |AbsentOf(v.addr, ino, all)| > |FreeSet(sb, v.blocks)|
  {
    FreshCount(sb, v, w, ino, all);
    var before, after := AbsentOf(v.addr, ino, all), AbsentOf(w.addr, ino, all);
    assert |FreeSet(sb, v.blocks)| == |FreeSet(sb, w.blocks)| + |FreshSet(v, w)|;
    forall s | s in after
      ensures s in before
    {
      assert Has(v.addr, ino, s) && Has(w.addr, ino, s);
      assert w.addr[Place(ino, s)] == 0;
    }
    assert |before| == |before - after| + |after| by {
      assert before == (before - after) + after;
    }
  }

  /** With the data of a range present, so are the index blocks on the way. */
  lemma {:induction false} PathsPresent(sb: Super, v: View, ino: nat, lo: nat, hi: nat)
    requires GoodView(sb, v) && ino < |v.inodes| && hi <= MAXFILE
    requires forall bn: nat {:trigger Home(ino, bn)} ::
      lo <= bn < hi ==> Home(ino, bn) in v.addr && v.addr[Home(ino, bn)] != 0
    ensures AllPresent(v.addr, ino, Paths(lo, hi))
  {
    if lo < hi {
      PathsPresent(sb, v, ino, lo, hi - 1);
      var pl := Home(ino, hi - 1);
      assert v.addr[pl] != 0;
      if !IsTop(pl.slot) {
        EntryIs(v.blocks, v.inodes, v.addr, pl);
        if pl.slot.DblLeaf? {
          EntryIs(v.blocks, v.inodes, v.addr, Place(ino, DblMid(pl.slot.j)));
        }
      }
    }
  }

  /** The write has everything it needs: a readable source, and room for every block it must add. */
  ghost predicate Enough(sb: Super, v: View, ino: nat, src: seq<Byte>, off: nat, n: nat) {
    n <= |src| && |AbsentOf(v.addr, ino, Touched(off, off + n))| <= |FreeSet(sb, v.blocks)|
  }

  /** A write is carried out in full exactly when it has everything it needs. */
  lemma DoneExact(sb: Super, v: View, w: View, ino: nat, src: seq<Byte>, off: nat, n: nat, r: nat, why: Stop)
    requires GoodView(sb, v) && GoodView(sb, w) && OwnerKept(v.owner, w.owner) && ino < |w.inodes|
    requires r <= n && Stopped(sb, w, ino, src, off, n, r, why) && DenseTo(w.addr, ino, off + r)
    requires Grew(v.addr, w.addr, ino, Reached(off, n, r))
    ensures r == n <==> Enough(sb, v, ino, src, off, n)
  {
    var all := Touched(off, off + n);
    ReachedWithin(off, n, r);
    RoomExact(sb, v, w, ino, Reached(off, n, r), all);
    match why
    case Done =>
      forall bn: nat | off / BSIZE <= bn < Ceil(off + n)
        ensures Home(ino, bn) in w.addr && w.addr[Home(ino, bn)] != 0
      {
        assert bn * BSIZE < off + n;
      }
      PathsPresent(sb, w, ino, off / BSIZE, Ceil(off + n));
      assert AbsentOf(w.addr, ino, all) == {};
    case NoSpace =>
      var bn := (off + r) / BSIZE;
      PathsHas(off / BSIZE, bn);
      PathsUp(off / BSIZE, bn + 1, Ceil(off + n));
      assert SlotOf(bn) in all && Has(w.addr, ino, SlotOf(bn));
      assert SlotOf(bn) in AbsentOf(w.addr, ino, all);
    case Fault =>
  }

  // -------------------------------------------------------- the budget of the log

  /** Truncating into an empty log writes the inode's block and every bitmap block of the freed blocks:
      within one operation's share just when those are fewer than MAXOPBLOCKS. */
  lemma TruncBudget(sb: Super, v: View, ino: nat, iblock: nat)
    requires GoodView(sb, v) && iblock < sb.bmapstart
    ensures |HeldBits(sb, v.owner, ino) + {iblock}| == |HeldBits(sb, v.owner, ino)| + 1
    ensures |HeldBits(sb, v.owner, ino)| <= Spans(sb)
  {
    var bits := HeldBits(sb, v.owner, ino);
    forall b | b in bits
      ensures sb.bmapstart + sb.nmeta / BPB <= b < sb.bmapstart + sb.nmeta / BPB + Spans(sb)
    {
      var c :| c in Held(v.owner, ino) && b == BitBlock(sb.bmapstart, c);
      assert v.owner[c] in v.addr;
      BitBlockSpan(sb, c);
    }
    IntervalSize(bits, sb.bmapstart + sb.nmeta / BPB, Spans(sb));
  }

  /** How many bitmap blocks the data area's bits lie in. */
  function Spans(sb: Super): nat {
    if sb.nmeta >= sb.size then 0 else (sb.size - 1) / BPB - sb.nmeta / BPB + 1
  }

  ghost function FreshBits(sb: Super, v: View, w: View): set<nat> {
    set c | c in w.owner && c !in v.owner :: BitBlock(sb.bmapstart, c)
  }

  lemma {:induction false} IntervalSize(s: set<nat>, lo: nat, n: nat)
    requires forall x :: x in s ==> lo <= x < lo + n
    ensures |s| <= n
  {
    if n > 0 {
      IntervalSize(s - {lo + n - 1}, lo, n - 1);
    } else {
      assert s == {};
    }
  }

  lemma FreshBitsSize(sb: Super, v: View, w: View)
    requires GoodView(sb, w)
    ensures |FreshBits(sb, v, w)| <= Spans(sb)
  {
    forall b | b in FreshBits(sb, v, w)
      ensures sb.bmapstart + sb.nmeta / BPB <= b < sb.bmapstart + sb.nmeta / BPB + Spans(sb)
    {
      var c :| c in w.owner && c !in v.owner && b == BitBlock(sb.bmapstart, c);
      assert sb.nmeta <= c < sb.size by {
        assert w.owner[c] in w.addr;
      }
      BitBlockSpan(sb, c);
    }
    IntervalSize(FreshBits(sb, v, w), sb.bmapstart + sb.nmeta / BPB, Spans(sb));
  }

  lemma BitBlockSpan(sb: Super, c: nat)
    requires sb.nmeta <= c < sb.size
    ensures sb.bmapstart + sb.nmeta / BPB <= BitBlock(sb.bmapstart, c) < sb.bmapstart + sb.nmeta / BPB + Spans(sb)
  {
  }

  /** The index slots on a path belong to every set of paths that holds the slot. */
  lemma {:induction false} PathsClosed(lo: nat, hi: nat, s: Slot)
    requires s in Paths(lo, hi) && !IsTop(s)
    ensures Parent(s) in Paths(lo, hi)
  {
    if s !in Path(SlotOf(hi - 1)) {
      PathsClosed(lo, hi - 1, s);
    }
  }

  /** Every logged block is a bitmap block of a new block or hangs on the way to the written bytes. */
  lemma LoggedWhere(sb: Super, v: View, w: View, ino: nat, lo: nat, hi: nat, written: set<Slot>, b: nat)
    requires GoodView(sb, v) && GoodView(sb, w) && Grew(v.addr, w.addr, ino, Paths(lo, hi))
    requires Logs(sb, v, w, ino, written) && written <= Paths(lo, hi) && b in w.logged && b !in v.logged
    ensures b in FreshBits(sb, v, w) || Mine(w.owner, ino, Paths(lo, hi), b)
  {
    if At(w, ino, written, b) {
      var s :| s in written && HangsAt(w, ino, s, b);
      assert w.owner[b] == Place(ino, s);
    } else {
      var c :| Fresh(v, w, c) && LoggedFor(sb, w, c, b);
      var pl := w.owner[c];
      assert w.addr[pl] == c && v.addr[pl] != c;
      assert pl.ino == ino && pl.slot in Paths(lo, hi);
      if b != c && Names(w, c, b) {
        PathsClosed(lo, hi, pl.slot);
        assert w.owner[b] == Place(ino, Parent(pl.slot));
      }
    }
  }

  /** One chunk of filewrite logs at most 4 data, 3 index and 1 inode block beside the bitmap blocks. */
  lemma LoggedSize(sb: Super, v: View, w: View, ino: nat, off: nat, n: nat, written: set<Slot>, iblock: nat)
    requires GoodView(sb, v) && GoodView(sb, w) && off + n <= MAXSIZE && n <= 3 * BSIZE && v.logged == {}
    requires
      && Grew(v.addr, w.addr, ino, Touched(off, off + n)) && Logs(sb, v, w, ino, written)
      && written <= Touched(off, off + n)
    ensures |w.logged + {iblock}| <= 8 + |FreshBits(sb, v, w)| <= 8 + Spans(sb)
  {
    var slots, bits := Touched(off, off + n), FreshBits(sb, v, w);
    if off < MAXSIZE {
      PathsSize(off / BSIZE, Ceil(off + n));
    }
    assert |slots| <= 7;
    var tree := set b | b in w.logged && Mine(w.owner, ino, slots, b);
    MineSize(w.addr, w.owner, sb.nmeta, sb.size, ino, slots, tree);
    forall b | b in w.logged
      ensures b in tree + bits
    {
      LoggedWhere(sb, v, w, ino, off / BSIZE, Ceil(off + n), written, b);
    }
    SubsetSize(w.logged + {iblock}, tree + bits + {iblock});
    assert |tree + bits + {iblock}| <= |tree + bits| + 1 && |tree + bits| <= |tree| + |bits|;
    FreshBitsSize(sb, v, w);
  }

  // ------------------------------------------------- a whole write, and a series

  /** Like Logs, with the block of the inode. */
  ghost predicate LogsAlso(sb: Super, v: View, w: View, ino: nat, written: set<Slot>, iblock: nat) {
    && AllPresent(w.addr, ino, written)
    && forall b {:trigger b in w.logged} ::
         b in w.logged <==> b in v.logged || b == iblock || At(w, ino, written, b) || Allocs(sb, v, w, b)
  }

  lemma InodeLogged(sb: Super, u: View, v: View, w: View, ino: nat, written: set<Slot>, iblock: nat)
    requires Logs(sb, u, v, ino, written) && w.addr == v.addr && w.owner == v.owner && w.logged == v.logged + {iblock}
    ensures LogsAlso(sb, u, w, ino, written, iblock)
  {
    forall b
      ensures At(w, ino, written, b) <==> At(v, ino, written, b)
      ensures Allocs(sb, u, w, b) <==> Allocs(sb, u, v, b)
    {
      assert forall s :: HangsAt(w, ino, s, b) <==> HangsAt(v, ino, s, b);
      assert forall c :: Fresh(u, w, c) <==> Fresh(u, v, c);
      assert forall c :: LoggedFor(sb, w, c, b) <==> LoggedFor(sb, v, c, b);
    }
  }

  ghost predicate OutcomeIn(sb: Super, iblock: nat, v: View, w: View, ino: nat, src: seq<Byte>, off: nat, n: nat,
                            r: nat, why: Stop, k: Aspect) {
    && r <= n && r <= |src|
    && match k
       case Disk => Stopped(sb, w, ino, src, off, n, r, why)
       case Contents => Overlaid(v.blocks, v.addr, w.blocks, w.addr, ino, off, Laid(src, r, why))
       case Sizes => ino < |v.inodes| && Resized(v.inodes, w.inodes, ino, Max(v.inodes[ino].size, off + r))
       case Addresses => Grew(v.addr, w.addr, ino, Reached(off, n, r))
       case Owners => OwnerKept(v.owner, w.owner) && LowestFirst(sb, v, w)
       case Logging => LogsAlso(sb, v, w, ino, DataSlots(off, off + r), iblock)
  }

  /** What writei did that reported r of n bytes: why it stopped, the contents, the sizes, what grew and
      what was logged. */
  ghost predicate Outcome(sb: Super, iblock: nat, v: View, w: View, ino: nat, src: seq<Byte>, off: nat, n: nat, r: nat,
                          why: Stop) {
    forall k: Aspect {:trigger OutcomeIn(sb, iblock, v, w, ino, src, off, n, r, why, k)} ::
      OutcomeIn(sb, iblock, v, w, ino, src, off, n, r, why, k)
  }

  lemma OutcomeAll(sb: Super, iblock: nat, v: View, w: View, ino: nat, src: seq<Byte>, off: nat, n: nat, r: nat,
                   why: Stop)
    requires Outcome(sb, iblock, v, w, ino, src, off, n, r, why)
    ensures r <= n && r <= |src| && ino < |v.inodes| && Stopped(sb, w, ino, src, off, n, r, why)
    ensures Overlaid(v.blocks, v.addr, w.blocks, w.addr, ino, off, Laid(src, r, why))
    ensures Resized(v.inodes, w.inodes, ino, Max(v.inodes[ino].size, off + r))
    ensures Grew(v.addr, w.addr, ino, Reached(off, n, r)) && OwnerKept(v.owner, w.owner) && LowestFirst(sb, v, w)
    ensures LogsAlso(sb, v, w, ino, DataSlots(off, off + r), iblock)
  {
    assert OutcomeIn(sb, iblock, v, w, ino, src, off, n, r, why, Disk);
    assert OutcomeIn(sb, iblock, v, w, ino, src, off, n, r, why, Contents);
    assert OutcomeIn(sb, iblock, v, w, ino, src, off, n, r, why, Sizes);
    assert OutcomeIn(sb, iblock, v, w, ino, src, off, n, r, why, Addresses);
    assert OutcomeIn(sb, iblock, v, w, ino, src, off, n, r, why, Owners);
    assert OutcomeIn(sb, iblock, v, w, ino, src, off, n, r, why, Logging);
  }

  /** writei after its loop: the size grows to what was written, and the inode is logged. */
  lemma WriteDone(sb: Super, iblock: nat, u: View, v: View, w: View, ino: nat, src: seq<Byte>, off: nat, n: nat, r: nat,
                  why: Stop)
    requires
      && GoodView(sb, u) && GoodView(sb, v) && BootZero(u.blocks) && Dense(u.inodes, u.addr) && Snug(u.inodes, u.addr)
    requires ino < |u.inodes| == |v.inodes| && off <= u.inodes[ino].size && Ended(sb, u, v, ino, src, off, n, r, why)
    requires w == v.(inodes := if off + r > u.inodes[ino].size
                               then v.inodes[ino := v.inodes[ino].(size := off + r)] else v.inodes,
                     logged := v.logged + {iblock})
    ensures
      && GoodView(sb, w) && BootZero(w.blocks) && Dense(w.inodes, w.addr) && Snug(w.inodes, w.addr)
      && |w.inodes| == |u.inodes|
    ensures Outcome(sb, iblock, u, w, ino, src, off, n, r, why) && (r == n <==> Enough(sb, u, ino, src, off, n))
    ensures n <= 3 * BSIZE && u.logged == {} ==> |w.logged| <= 8 + Spans(sb)
  {
    EndedAll(sb, u, v, ino, src, off, n, r, why);
    var laid, written := Laid(src, r, why), DataSlots(off, off + r);
    WroteAll(sb, u, v, ino, off, laid, Reached(off, n, r), written);
    WroteSound(sb, u, v, w.inodes, ino, off, n, r, laid, written);
    DoneExact(sb, u, v, ino, src, off, n, r, why);
    OutcomeBy(sb, iblock, u, v, w, ino, src, off, n, r, why);
    if n <= 3 * BSIZE && u.logged == {} {
      ReachedWithin(off, n, r);
      LoggedSize(sb, u, v, ino, off, n, written, iblock);
    }
  }

  lemma OutcomeBy(sb: Super, iblock: nat, u: View, v: View, w: View, ino: nat, src: seq<Byte>, off: nat, n: nat, r: nat,
                  why: Stop)
    requires r <= n && Stopped(sb, v, ino, src, off, n, r, why) && ino < |u.inodes|
    requires Wrote(sb, u, v, ino, off, Laid(src, r, why), Reached(off, n, r), DataSlots(off, off + r))
    requires w.blocks == v.blocks && w.addr == v.addr && w.owner == v.owner && w.logged == v.logged + {iblock}
    requires Resized(u.inodes, w.inodes, ino, Max(u.inodes[ino].size, off + r))
    ensures Outcome(sb, iblock, u, w, ino, src, off, n, r, why)
  {
    WroteAll(sb, u, v, ino, off, Laid(src, r, why), Reached(off, n, r), DataSlots(off, off + r));
    InodeLogged(sb, u, v, w, ino, DataSlots(off, off + r), iblock);
    assert forall c :: Fresh(u, w, c) <==> Fresh(u, v, c);
  }

  /** After i bytes of filewrite: the bytes laid, the size, and what grew. */
  ghost predicate Partial(u: View, w: View, ino: nat, off: nat, i: nat, laid: seq<Byte>, slots: set<Slot>) {
    forall k: Aspect {:trigger PartialIn(u, w, ino, off, i, laid, slots, k)} ::
      PartialIn(u, w, ino, off, i, laid, slots, k)
  }

  ghost predicate PartialIn(u: View, w: View, ino: nat, off: nat, i: nat, laid: seq<Byte>, slots: set<Slot>,
                            k: Aspect) {
    match k
    case Contents => Overlaid(u.blocks, u.addr, w.blocks, w.addr, ino, off, laid)
    case Sizes => ino < |u.inodes| && Resized(u.inodes, w.inodes, ino, Grown(u.inodes[ino].size, off, i))
    case Addresses => Grew(u.addr, w.addr, ino, slots)
    case Owners => OwnerKept(u.owner, w.owner)
    case _ => true
  }

  lemma PartialAll(u: View, w: View, ino: nat, off: nat, i: nat, laid: seq<Byte>, slots: set<Slot>)
    requires Partial(u, w, ino, off, i, laid, slots)
    ensures Overlaid(u.blocks, u.addr, w.blocks, w.addr, ino, off, laid)
    ensures ino < |u.inodes| && Resized(u.inodes, w.inodes, ino, Grown(u.inodes[ino].size, off, i))
    ensures Grew(u.addr, w.addr, ino, slots) && OwnerKept(u.owner, w.owner)
  {
    assert PartialIn(u, w, ino, off, i, laid, slots, Contents) && PartialIn(u, w, ino, off, i, laid, slots, Sizes);
    assert PartialIn(u, w, ino, off, i, laid, slots, Addresses) && PartialIn(u, w, ino, off, i, laid, slots, Owners);
  }

  lemma PartialBy(u: View, w: View, ino: nat, off: nat, i: nat, laid: seq<Byte>, slots: set<Slot>)
    requires Overlaid(u.blocks, u.addr, w.blocks, w.addr, ino, off, laid) && ino < |u.inodes|
    requires Resized(u.inodes, w.inodes, ino, Grown(u.inodes[ino].size, off, i))
    requires Grew(u.addr, w.addr, ino, slots) && OwnerKept(u.owner, w.owner)
    ensures Partial(u, w, ino, off, i, laid, slots)
  {
  }

  /** What is logged plays no part in it. */
  lemma PartialSame(u: View, v: View, w: View, ino: nat, off: nat, i: nat, laid: seq<Byte>, slots: set<Slot>)
    requires Partial(u, v, ino, off, i, laid, slots) && w == v.(logged := w.logged)
    ensures Partial(u, w, ino, off, i, laid, slots)
  {
    PartialAll(u, v, ino, off, i, laid, slots);
  }

  lemma WroteNone(u: View, ino: nat, off: nat)
    requires ino < |u.inodes|
    ensures Partial(u, u, ino, off, 0, [], Touched(off, off))
  {
    SameBytes(u.blocks, u.addr, u.blocks, u.addr, ino, off);
  }

  /** The size after i bytes at off. */
  function Grown(size: nat, off: nat, i: nat): nat { if i == 0 then size else Max(size, off + i) }

  lemma {:induction false} PathsWider(lo: nat, lo': nat, hi: nat)
    requires lo' <= lo
    ensures Paths(lo, hi) <= Paths(lo', hi)
  {
    if lo < hi && hi <= MAXFILE {
      PathsWider(lo, lo', hi - 1);
    }
  }

  /** What filewrite has grown once a chunk of it stops. */
  lemma ReachedSeries(off: nat, i: nat, n1: nat, r: nat, n: nat)
    requires r <= n1 && i + n1 <= n && off + i + n1 <= MAXSIZE
    ensures var end := off + i;
      Touched(off, end) + Reached(end, n1, r) <= if r == n1 then Touched(off, end + n1) else Reached(off, n, i + r)
  {
    var end := off + i;
    var hi := if r == n1 then Ceil(end + n1) else (end + r) / BSIZE + 1;
    CeilUp(off, end);
    CeilUp(end, end + r);
    JoinPaths(off / BSIZE, end / BSIZE, Ceil(end), hi);
  }

  lemma JoinPaths(lo: nat, mid: nat, c: nat, hi: nat)
    requires lo <= mid && c <= hi <= MAXFILE
    ensures Paths(lo, c) + Paths(mid, hi) <= Paths(lo, hi)
  {
    PathsWider(mid, lo, hi);
    PathsUp(lo, c, hi);
  }

  lemma CeilUp(x: nat, y: nat)
    requires x <= y <= MAXSIZE
    ensures x / BSIZE <= y / BSIZE && Ceil(x) <= Ceil(y) <= MAXFILE && Ceil(x) <= y / BSIZE + 1
    ensures y < MAXSIZE ==> y / BSIZE + 1 <= MAXFILE
  {
  }

  /** One more chunk after i bytes. */
  lemma PartialTwice(sb: Super, iblock: nat, u: View, v: View, w: View, ino: nat, src: seq<Byte>, off: nat, i: nat,
                     n1: nat, r: nat, why: Stop, n: nat, laid: seq<Byte>, tot: nat, slots: set<Slot>)
    requires i <= |src| && Partial(u, v, ino, off, i, src[..i], Touched(off, off + i)) && i + n1 <= n && 0 < n1
    requires
      && Outcome(sb, iblock, v, w, ino, src[i..], off + i, n1, r, why) && ino < |v.inodes|
      && off + i <= v.inodes[ino].size
    requires r <= n1 && tot == i + r <= |src| && laid == src[..i] + Laid(src[i..], r, why)
    requires slots == if r == n1 then Touched(off, off + tot) else Reached(off, n, tot)
    ensures Partial(u, w, ino, off, tot, laid, slots)
  {
    OutcomeAll(sb, iblock, v, w, ino, src[i..], off + i, n1, r, why);
    var before, more := Touched(off, off + i), Reached(off + i, n1, r);
    SeriesSlots(off, i, n1, r, n, tot, before, more, slots);
    PartialJoin(u, v, w, ino, off, i, r, src[..i], Laid(src[i..], r, why), before, more, tot, laid, slots);
  }

  lemma PartialJoin(u: View, v: View, w: View, ino: nat, off: nat, i: nat, r: nat, s: seq<Byte>, t: seq<Byte>,
                    before: set<Slot>, more: set<Slot>, tot: nat, laid: seq<Byte>, slots: set<Slot>)
    requires Partial(u, v, ino, off, i, s, before) && |s| == i && tot == i + r && laid == s + t
    requires ino < |v.inodes| && off + i <= v.inodes[ino].size
    requires Overlaid(v.blocks, v.addr, w.blocks, w.addr, ino, off + i, t)
    requires Resized(v.inodes, w.inodes, ino, Max(v.inodes[ino].size, off + i + r))
    requires Grew(v.addr, w.addr, ino, more) && OwnerKept(v.owner, w.owner) && before <= slots && more <= slots
    ensures Partial(u, w, ino, off, tot, laid, slots)
  {
    PartialAll(u, v, ino, off, i, s, before);
    OverlaidTwice(u.blocks, u.addr, v.blocks, v.addr, w.blocks, w.addr, ino, off, s, t);
    GrewTwice(u.addr, v.addr, w.addr, ino, before, more, slots);
    PartialBy(u, w, ino, off, tot, laid, slots);
  }

  lemma SeriesSlots(off: nat, i: nat, n1: nat, r: nat, n: nat, tot: nat, before: set<Slot>, more: set<Slot>,
                    slots: set<Slot>)
    requires r <= n1 && i + n1 <= n && off + i + n1 <= MAXSIZE && tot == i + r
    requires before == Touched(off, off + i) && more == Reached(off + i, n1, r)
    requires slots == if r == n1 then Touched(off, off + tot) else Reached(off, n, tot)
    ensures before <= slots && more <= slots
  {
    ReachedSeries(off, i, n1, r, n);
    assert r == n1 ==> off + i + n1 == off + tot;
  }

  /** What one chunk of filewrite did, after i bytes. */
  lemma ChunkDone(sb: Super, iblock: nat, u: View, v: View, w: View, ino: nat, src: seq<Byte>, off: nat, i: nat,
                  n1: nat, r: nat, why: Stop, n: nat, laid: seq<Byte>, tot: nat)
    requires i <= |src| && Partial(u, v, ino, off, i, src[..i], Touched(off, off + i)) && i + n1 <= n && 0 < n1
    requires
      && Outcome(sb, iblock, v, w, ino, src[i..], off + i, n1, r, why) && ino < |v.inodes|
      && off + i <= v.inodes[ino].size
    requires r <= n1 && i + r <= |src| && tot == i + r && laid == src[..i] + Laid(src[i..], r, why)
    ensures Extends(src, i, r, n1, laid)
    ensures Partial(u, w, ino, off, tot, laid, if r == n1 then Touched(off, off + tot) else Reached(off, n, tot))
    ensures off + tot <= MAXSIZE && ino < |w.inodes| && off + tot <= w.inodes[ino].size
  {
    var slots := if r == n1 then Touched(off, off + tot) else Reached(off, n, tot);
    PartialTwice(sb, iblock, u, v, w, ino, src, off, i, n1, r, why, n, laid, tot, slots);
    OutcomeAll(sb, iblock, v, w, ino, src[i..], off + i, n1, r, why);
    ChunkLaid(src, i, r, n1, why, laid);
  }

  /** Why the last chunk stopped is why the whole write stopped. */
  lemma StoppedWhole(sb: Super, w: View, ino: nat, src: seq<Byte>, off: nat, i: nat, n1: nat, r: nat, why: Stop, n: nat,
                     tot: nat)
    requires
      && i <= |src| && i + n1 <= n && off + n <= MAXSIZE && r < n1 && Stopped(sb, w, ino, src[i..], off + i, n1, r, why)
    requires tot == i + r
    ensures Stopped(sb, w, ino, src, off, n, tot, why)
  {
    assert off + i + r == off + tot;
  }

  /** Bytes per chunk of filewrite. */
  const CHUNK: nat := (MAXOPBLOCKS - 1 - 1 - 2) / 2 * BSIZE

  /** One begin_op/end_op pair of filewrite: the state before and after, and writei's result. */
  datatype Op = Op(v: View, w: View, r: int, why: Stop)

  /** The k-th operation writes the k-th chunk, starts where the one before left off, and logs
      exactly the blocks it changed, within the bound. */
  ghost predicate OpOk(sb: Super, inodestart: nat, prev: View, ino: nat, src: seq<Byte>, off: nat, n: nat, op: Op,
                       k: nat) {
    && k * CHUNK < n && k * CHUNK <= |src| && op.v == prev.(logged := {}) && |op.w.logged| <= 8 + Spans(sb)
    && -1 <= op.r
    && if op.r == -1 then op.w == op.v
       else Outcome(sb, inodestart + ino / IPB, op.v, op.w, ino, src[k * CHUNK..], off + k * CHUNK,
                    Min(n - k * CHUNK, CHUNK), op.r, op.why)
  }

  ghost predicate OpAt(sb: Super, inodestart: nat, u: View, ino: nat, src: seq<Byte>, off: nat, n: nat, ops: seq<Op>,
                       k: nat) {
    && k < |ops| && OpOk(sb, inodestart, if k == 0 then u else ops[k - 1].w, ino, src, off, n, ops[k], k)
    && (k < |ops| - 1 ==> ops[k].r == CHUNK)
  }

  ghost predicate OpsOk(sb: Super, inodestart: nat, u: View, ino: nat, src: seq<Byte>, off: nat, n: nat, ops: seq<Op>) {
    forall k: nat {:trigger OpAt(sb, inodestart, u, ino, src, off, n, ops, k)} ::
      k < |ops| ==> OpAt(sb, inodestart, u, ino, src, off, n, ops, k)
  }

  lemma OneMoreOp(sb: Super, inodestart: nat, u: View, ino: nat, src: seq<Byte>, off: nat, n: nat, ops: seq<Op>, op: Op,
                  prev: View)
    requires OpsOk(sb, inodestart, u, ino, src, off, n, ops) && (ops != [] ==> ops[|ops| - 1].r == CHUNK)
    requires prev == if ops == [] then u else ops[|ops| - 1].w
    requires OpOk(sb, inodestart, prev, ino, src, off, n, op, |ops|)
    ensures OpsOk(sb, inodestart, u, ino, src, off, n, ops + [op])
  {
    var ops' := ops + [op];
    forall k: nat | k < |ops'|
      ensures OpAt(sb, inodestart, u, ino, src, off, n, ops', k)
    {
      if k < |ops| {
        assert OpAt(sb, inodestart, u, ino, src, off, n, ops, k);
        assert k > 0 ==> ops'[k - 1] == ops[k - 1];
      }
    }
  }

  /** All chunks so far are complete. */
  ghost predicate Series(sb: Super, inodestart: nat, u: View, w: View, ino: nat, src: seq<Byte>, off: nat, n: nat,
                         ops: seq<Op>, i: nat) {
    && OpsOk(sb, inodestart, u, ino, src, off, n, ops) && w == (if ops == [] then u else ops[|ops| - 1].w)
    && i == Min(|ops| * CHUNK, n) && (ops != [] ==> ops[|ops| - 1].r == i - (|ops| - 1) * CHUNK)
    && (ops != [] ==> (|ops| - 1) * CHUNK < i)
  }

  lemma ChunkCount(k: nat, n: nat)
    requires 0 < n <= k * CHUNK && (k - 1) * CHUNK < n
    ensures k == (n + CHUNK - 1) / CHUNK
  {
  }

  lemma SeriesEnd(sb: Super, inodestart: nat, u: View, w: View, ino: nat, src: seq<Byte>, off: nat, n: nat,
                  ops: seq<Op>)
    requires Series(sb, inodestart, u, w, ino, src, off, n, ops, n) && n > 0
    ensures ops != [] && |ops| == (n + CHUNK - 1) / CHUNK && ops[|ops| - 1].r == n - (|ops| - 1) * CHUNK
  {
    ChunkCount(|ops|, n);
  }

  lemma SeriesStep(sb: Super, inodestart: nat, u: View, v: View, ino: nat, src: seq<Byte>, off: nat, n: nat,
                   ops: seq<Op>, i: nat, op: Op)
    requires Series(sb, inodestart, u, v, ino, src, off, n, ops, i) && i < n && i <= |src|
    requires op.v == v.(logged := {}) && |op.w.logged| <= 8 + Spans(sb) && -1 <= op.r
    requires if op.r == -1 then op.w == op.v
             else Outcome(sb, inodestart + ino / IPB, op.v, op.w, ino, src[i..], off + i, Min(n - i, CHUNK), op.r,
                          op.why)
    ensures OpsOk(sb, inodestart, u, ino, src, off, n, ops + [op])
    ensures op.r == Min(n - i, CHUNK) ==> Series(sb, inodestart, u, op.w, ino, src, off, n, ops + [op], i + op.r)
  {
    assert i == |ops| * CHUNK;
    assert OpOk(sb, inodestart, v, ino, src, off, n, op, |ops|);
    OneMoreOp(sb, inodestart, u, ino, src, off, n, ops, op, v);
  }

  /** What filewrite needs to succeed: the offset within the file, room in the file's address space, a
      readable source, and room on the disk. */
  ghost predicate Writable(sb: Super, v: View, ino: nat, src: seq<Byte>, off: nat, n: int) {
    n > 0 && ino < |v.inodes| && off <= v.inodes[ino].size && off + n <= MAXSIZE && Enough(sb, v, ino, src, off, n)
  }

  /** A chunk that reports less than it was asked for: the write lacked something it needs. */
  lemma Broken(sb: Super, iblock: nat, u: View, op: Op, ino: nat, src: seq<Byte>, off: nat, i: nat, n1: nat, n: nat,
               tot: nat, laid: seq<Byte>)
    requires GoodView(sb, u) && GoodView(sb, op.w) && Dense(op.w.inodes, op.w.addr) && ino < |u.inodes| == |op.v.inodes|
    requires 0 <= op.r < n1 && i + n1 <= n && i <= |src| && tot == i + op.r
    requires Outcome(sb, iblock, op.v, op.w, ino, src[i..], off + i, n1, op.r, op.why)
    requires Partial(u, op.w, ino, off, tot, laid, Reached(off, n, tot))
    ensures !Writable(sb, u, ino, src, off, n)
  {
    if off + n <= MAXSIZE {
      ShortStop(sb, iblock, op, ino, src, off, i, n1, n, tot);
      StoppedShort(sb, u, op.w, ino, src, off, n, tot, op.why, laid);
    }
  }

  lemma ShortStop(sb: Super, iblock: nat, op: Op, ino: nat, src: seq<Byte>, off: nat, i: nat, n1: nat, n: nat, tot: nat)
    requires 0 <= op.r < n1 && i + n1 <= n && i <= |src| && tot == i + op.r && off + n <= MAXSIZE
    requires Outcome(sb, iblock, op.v, op.w, ino, src[i..], off + i, n1, op.r, op.why)
    ensures
      && Stopped(sb, op.w, ino, src, off, n, tot, op.why) && ino < |op.w.inodes| && off + tot <= op.w.inodes[ino].size
  {
    OutcomeAll(sb, iblock, op.v, op.w, ino, src[i..], off + i, n1, op.r, op.why);
    StoppedWhole(sb, op.w, ino, src, off, i, n1, op.r, op.why, n, tot);
  }

  lemma StoppedShort(sb: Super, u: View, w: View, ino: nat, src: seq<Byte>, off: nat, n: nat, tot: nat, why: Stop,
                     laid: seq<Byte>)
    requires
      && GoodView(sb, u) && GoodView(sb, w) && Dense(w.inodes, w.addr) && ino < |w.inodes|
      && off + tot <= w.inodes[ino].size
    requires
      && tot < n && Stopped(sb, w, ino, src, off, n, tot, why)
      && Partial(u, w, ino, off, tot, laid, Reached(off, n, tot))
    ensures !Enough(sb, u, ino, src, off, n)
  {
    PartialAll(u, w, ino, off, tot, laid, Reached(off, n, tot));
    DenseUpTo(w.inodes, w.addr, ino, off + tot);
    DoneExact(sb, u, w, ino, src, off, n, tot, why);
  }

  lemma DenseUpTo(inodes: seq<Inode>, addr: Addrs, ino: nat, x: nat)
    requires Dense(inodes, addr) && ino < |inodes| && x <= inodes[ino].size
    ensures DenseTo(addr, ino, x)
  {
  }

  /** filewrite after i bytes, all chunks complete: what was written, or the operations behind it. */
  ghost predicate GoingIn(sb: Super, inodestart: nat, u: View, w: View, ino: nat, src: seq<Byte>, off: nat, n: nat,
                          ops: seq<Op>, i: nat, k: Aspect) {
    && i <= |src| && ino < |u.inodes| == |w.inodes| && i <= n
    && match k
       case Contents => Partial(u, w, ino, off, i, src[..i], Touched(off, off + i))
       case Sizes => i > 0 ==> off + i <= MAXSIZE && off + i <= w.inodes[ino].size && off <= u.inodes[ino].size
       case _ => Series(sb, inodestart, u, w, ino, src, off, n, ops, i)
  }

  ghost predicate Going(sb: Super, inodestart: nat, u: View, w: View, ino: nat, src: seq<Byte>, off: nat, n: nat,
                        ops: seq<Op>, i: nat) {
    forall k: Aspect {:trigger GoingIn(sb, inodestart, u, w, ino, src, off, n, ops, i, k)} ::
      GoingIn(sb, inodestart, u, w, ino, src, off, n, ops, i, k)
  }

  lemma GoingAll(sb: Super, inodestart: nat, u: View, w: View, ino: nat, src: seq<Byte>, off: nat, n: nat, ops: seq<Op>,
                 i: nat)
    requires Going(sb, inodestart, u, w, ino, src, off, n, ops, i)
    ensures i <= |src| && ino < |u.inodes| == |w.inodes| && i <= n
    ensures
      && Partial(u, w, ino, off, i, src[..i], Touched(off, off + i))
      && Series(sb, inodestart, u, w, ino, src, off, n, ops, i)
    ensures i > 0 ==> off + i <= MAXSIZE && off + i <= w.inodes[ino].size && off <= u.inodes[ino].size
  {
    assert GoingIn(sb, inodestart, u, w, ino, src, off, n, ops, i, Contents);
    assert GoingIn(sb, inodestart, u, w, ino, src, off, n, ops, i, Sizes);
    assert GoingIn(sb, inodestart, u, w, ino, src, off, n, ops, i, Logging);
  }

  lemma GoingFirst(sb: Super, inodestart: nat, u: View, ino: nat, src: seq<Byte>, off: nat, n: nat)
    requires ino < |u.inodes|
    ensures Going(sb, inodestart, u, u, ino, src, off, n, [], 0)
  {
    WroteNone(u, ino, off);
    assert src[..0] == [];
  }

  /** filewrite after a chunk that was not completed, tot bytes reported in all. */
  ghost predicate HaltedIn(sb: Super, inodestart: nat, u: View, w: View, ino: nat, src: seq<Byte>, off: nat, n: nat,
                           ops: seq<Op>, tot: nat, laid: seq<Byte>, k: Aspect) {
    && tot <= |src| && tot < n && ops != [] && w == ops[|ops| - 1].w
    && match k
       case Disk => !Writable(sb, u, ino, src, off, n) && (laid == src[..tot] || (laid == src && |src| < n))
       case Sizes => ino < |u.inodes| && Resized(u.inodes, w.inodes, ino, Grown(u.inodes[ino].size, off, tot))
       case Contents => Overlaid(u.blocks, u.addr, w.blocks, w.addr, ino, off, laid)
       case _ => OpsOk(sb, inodestart, u, ino, src, off, n, ops)
  }

  ghost predicate Halted(sb: Super, inodestart: nat, u: View, w: View, ino: nat, src: seq<Byte>, off: nat, n: nat,
                         ops: seq<Op>, tot: nat, laid: seq<Byte>) {
    forall k: Aspect {:trigger HaltedIn(sb, inodestart, u, w, ino, src, off, n, ops, tot, laid, k)} ::
      HaltedIn(sb, inodestart, u, w, ino, src, off, n, ops, tot, laid, k)
  }

  lemma HaltedAll(sb: Super, inodestart: nat, u: View, w: View, ino: nat, src: seq<Byte>, off: nat, n: nat,
                  ops: seq<Op>, tot: nat, laid: seq<Byte>)
    requires Halted(sb, inodestart, u, w, ino, src, off, n, ops, tot, laid)
    ensures tot <= |src| && tot < n && ops != [] && w == ops[|ops| - 1].w && !Writable(sb, u, ino, src, off, n)
    ensures laid == src[..tot] || (laid == src && |src| < n)
    ensures ino < |u.inodes| && Resized(u.inodes, w.inodes, ino, Grown(u.inodes[ino].size, off, tot))
    ensures
      && Overlaid(u.blocks, u.addr, w.blocks, w.addr, ino, off, laid) && OpsOk(sb, inodestart, u, ino, src, off, n, ops)
  {
    assert HaltedIn(sb, inodestart, u, w, ino, src, off, n, ops, tot, laid, Disk);
    assert HaltedIn(sb, inodestart, u, w, ino, src, off, n, ops, tot, laid, Sizes);
    assert HaltedIn(sb, inodestart, u, w, ino, src, off, n, ops, tot, laid, Contents);
    assert HaltedIn(sb, inodestart, u, w, ino, src, off, n, ops, tot, laid, Logging);
  }

  /** A complete chunk. */
  lemma GoingOn(sb: Super, inodestart: nat, u: View, v: View, ino: nat, src: seq<Byte>, off: nat, n: nat, ops: seq<Op>,
                i: nat, op: Op, n1: nat, laid: seq<Byte>, tot: nat)
    requires
      && Going(sb, inodestart, u, v, ino, src, off, n, ops, i) && i < n && n1 == Min(n - i, CHUNK)
      && ino < |v.inodes| == |op.w.inodes|
    requires op.v == v.(logged := {}) && |op.w.logged| <= 8 + Spans(sb) && op.r == n1 && tot == i + op.r <= |src|
    requires Outcome(sb, inodestart + ino / IPB, op.v, op.w, ino, src[i..], off + i, n1, op.r, op.why)
    requires off + i <= v.inodes[ino].size && off + tot <= MAXSIZE && off + tot <= op.w.inodes[ino].size
    requires laid == src[..tot] && Partial(u, op.w, ino, off, tot, laid, Touched(off, off + tot))
    ensures Going(sb, inodestart, u, op.w, ino, src, off, n, ops + [op], tot)
  {
    GoingAll(sb, inodestart, u, v, ino, src, off, n, ops, i);
    SeriesStep(sb, inodestart, u, v, ino, src, off, n, ops, i, op);
    if i == 0 {
      PartialAll(u, v, ino, off, i, src[..i], Touched(off, off + i));
    }
    GoingBy(sb, inodestart, u, op.w, ino, src, off, n, ops + [op], tot, laid, Touched(off, off + tot));
  }

  lemma GoingBy(sb: Super, inodestart: nat, u: View, w: View, ino: nat, src: seq<Byte>, off: nat, n: nat, ops: seq<Op>,
                i: nat, laid: seq<Byte>, slots: set<Slot>)
    requires i <= |src| && ino < |u.inodes| == |w.inodes| && i <= n
    requires laid == src[..i] && slots == Touched(off, off + i) && Partial(u, w, ino, off, i, laid, slots)
    requires i > 0 ==> off + i <= MAXSIZE && off + i <= w.inodes[ino].size && off <= u.inodes[ino].size
    requires Series(sb, inodestart, u, w, ino, src, off, n, ops, i)
    ensures Going(sb, inodestart, u, w, ino, src, off, n, ops, i)
  {
  }

  /** A chunk that was refused. */
  lemma Refused(sb: Super, inodestart: nat, u: View, v: View, ino: nat, src: seq<Byte>, off: nat, n: nat, ops: seq<Op>,
                i: nat, op: Op, n1: nat, laid: seq<Byte>)
    requires
      && Going(sb, inodestart, u, v, ino, src, off, n, ops, i) && i < n && n1 == Min(n - i, CHUNK) && ino < |v.inodes|
    requires op.v == op.w == v.(logged := {}) && op.r == -1 && i <= |src| && laid == src[..i]
    requires off + i > v.inodes[ino].size || off + i + n1 > MAXSIZE
    ensures Halted(sb, inodestart, u, op.w, ino, src, off, n, ops + [op], i, laid)
  {
    GoingAll(sb, inodestart, u, v, ino, src, off, n, ops, i);
    SeriesStep(sb, inodestart, u, v, ino, src, off, n, ops, i, op);
    PartialAll(u, v, ino, off, i, src[..i], Touched(off, off + i));
  }

  /** A chunk that stopped short. */
  lemma CutShort(sb: Super, inodestart: nat, u: View, v: View, ino: nat, src: seq<Byte>, off: nat, n: nat, ops: seq<Op>,
                 i: nat, op: Op, n1: nat, laid: seq<Byte>, tot: nat)
    requires
      && Going(sb, inodestart, u, v, ino, src, off, n, ops, i) && i < n && n1 == Min(n - i, CHUNK) && GoodView(sb, u)
      && GoodView(sb, op.w)
    requires Dense(op.w.inodes, op.w.addr)
    requires op.v == v.(logged := {}) && |op.w.logged| <= 8 + Spans(sb) && 0 <= op.r < n1 && tot == i + op.r <= |src|
    requires Outcome(sb, inodestart + ino / IPB, op.v, op.w, ino, src[i..], off + i, n1, op.r, op.why)
    requires Extends(src, i, op.r, n1, laid) && Partial(u, op.w, ino, off, tot, laid, Reached(off, n, tot))
    ensures Halted(sb, inodestart, u, op.w, ino, src, off, n, ops + [op], tot, laid)
  {
    GoingAll(sb, inodestart, u, v, ino, src, off, n, ops, i);
    SeriesStep(sb, inodestart, u, v, ino, src, off, n, ops, i, op);
    PartialAll(u, op.w, ino, off, tot, laid, Reached(off, n, tot));
    Broken(sb, inodestart + ino / IPB, u, op, ino, src, off, i, Min(n - i, CHUNK), n, tot, laid);
  }

  lemma ChunkRan(sb: Super, inodestart: nat, u: View, v: View, ino: nat, src: seq<Byte>, off: nat, n: nat, ops: seq<Op>,
                 i: nat, op: Op, n1: nat, laid: seq<Byte>, tot: nat)
    requires Going(sb, inodestart, u, v, ino, src, off, n, ops, i) && i + n1 <= n && 0 < n1 && ino < |v.inodes|
    requires op.v == v.(logged := {}) && off + i <= v.inodes[ino].size && 0 <= op.r <= n1 && tot == i + op.r <= |src|
    requires Outcome(sb, inodestart + ino / IPB, op.v, op.w, ino, src[i..], off + i, n1, op.r, op.why)
    requires laid == src[..i] + Laid(src[i..], op.r, op.why)
    ensures Extends(src, i, op.r, n1, laid)
    ensures Partial(u, op.w, ino, off, tot, laid, if op.r == n1 then Touched(off, off + tot) else Reached(off, n, tot))
    ensures off + tot <= MAXSIZE && ino < |op.w.inodes| && off + tot <= op.w.inodes[ino].size
  {
    GoingAll(sb, inodestart, u, v, ino, src, off, n, ops, i);
    PartialSame(u, v, op.v, ino, off, i, src[..i], Touched(off, off + i));
    ChunkDone(sb, inodestart + ino / IPB, u, op.v, op.w, ino, src, off, i, n1, op.r, op.why, n, laid, tot);
  }

  /** One chunk of filewrite, from what writei reports of it. */
  lemma ChunkStep(sb: Super, inodestart: nat, u: View, v: View, ino: nat, src: seq<Byte>, off: nat, n: nat,
                  ops: seq<Op>, i: nat, op: Op, n1: nat) returns (laid: seq<Byte>)
    requires
      && Going(sb, inodestart, u, v, ino, src, off, n, ops, i) && i < n && i <= |src| && n1 == Min(n - i, CHUNK)
      && GoodView(sb, u)
    requires GoodView(sb, op.w) && Dense(op.w.inodes, op.w.addr) && ino < |v.inodes| == |op.w.inodes|
    requires op.v == v.(logged := {}) && |op.w.logged| <= 8 + Spans(sb) && -1 <= op.r <= n1 && op.r <= |src[i..]|
    requires op.r == -1 <==> off + i > v.inodes[ino].size || off + i + n1 > MAXSIZE
    requires op.r == -1 ==> op.w == op.v
    requires op.r != -1 ==> Outcome(sb, inodestart + ino / IPB, op.v, op.w, ino, src[i..], off + i, n1, op.r, op.why)
    ensures op.r == n1 ==> i + op.r <= |src| && laid == src[..i + op.r]
    ensures op.r == n1 ==>
      Going(sb, inodestart, u, op.w, ino, src, off, n, ops + [op], i + op.r) && off + i + op.r <= MAXSIZE
    ensures op.r != n1 ==> Halted(sb, inodestart, u, op.w, ino, src, off, n, ops + [op], i + Max0(op.r), laid)
  {
    laid := src[..i];
    if op.r == -1 {
      Refused(sb, inodestart, u, v, ino, src, off, n, ops, i, op, n1, laid);
      return;
    }
    var tot := i + op.r;
    laid := src[..i] + Laid(src[i..], op.r, op.why);
    ChunkRan(sb, inodestart, u, v, ino, src, off, n, ops, i, op, n1, laid, tot);
    if op.r == n1 {
      GoingOn(sb, inodestart, u, v, ino, src, off, n, ops, i, op, n1, laid, tot);
    } else {
      CutShort(sb, inodestart, u, v, ino, src, off, n, ops, i, op, n1, laid, tot);
    }
  }

  /** filewrite at the end of its loop: it had everything it needs. */
  lemma WriteEnded(sb: Super, inodestart: nat, u: View, w: View, ino: nat, src: seq<Byte>, off: nat, n: nat,
                   ops: seq<Op>)
    requires
      && Going(sb, inodestart, u, w, ino, src, off, n, ops, n) && GoodView(sb, u) && GoodView(sb, w)
      && Dense(w.inodes, w.addr)
    ensures n <= |src| && (n > 0 ==> Writable(sb, u, ino, src, off, n) && ops != [] && |ops| == (n + CHUNK - 1) / CHUNK)
    ensures n > 0 ==> ops[|ops| - 1].r == n - (|ops| - 1) * CHUNK
    ensures n == 0 ==> ops == []
    ensures OpsOk(sb, inodestart, u, ino, src, off, n, ops) && (ops != [] ==> w == ops[|ops| - 1].w)
    ensures ino < |u.inodes| && Resized(u.inodes, w.inodes, ino, Grown(u.inodes[ino].size, off, n))
    ensures Overlaid(u.blocks, u.addr, w.blocks, w.addr, ino, off, src[..n])
  {
    GoingAll(sb, inodestart, u, w, ino, src, off, n, ops, n);
    PartialAll(u, w, ino, off, n, src[..n], Touched(off, off + n));
    if n > 0 {
      RanWhole(sb, u, w, ino, src, off, n);
      SeriesEnd(sb, inodestart, u, w, ino, src, off, n, ops);
    }
  }

  lemma RanWhole(sb: Super, u: View, w: View, ino: nat, src: seq<Byte>, off: nat, n: nat)
    requires GoodView(sb, u) && GoodView(sb, w) && Dense(w.inodes, w.addr) && ino < |u.inodes| == |w.inodes|
    requires 0 < n <= |src| && off + n <= MAXSIZE && off <= u.inodes[ino].size && off + n <= w.inodes[ino].size
    requires Partial(u, w, ino, off, n, src[..n], Touched(off, off + n))
    ensures Writable(sb, u, ino, src, off, n)
  {
    PartialAll(u, w, ino, off, n, src[..n], Touched(off, off + n));
    DenseUpTo(w.inodes, w.addr, ino, off + n);
    DoneExact(sb, u, w, ino, src, off, n, n, Done);
  }

  // ----------------------------------------------- truncation by size of the file

  /** File blocks below the double-indirect tree. */
  const SINGLES: nat := NDIRECT + NINDIRECT

  /** In a file of this size, the j-th second-level block is present, unless the size ends just before it. */
  lemma MidBySize(sb: Super, v: View, ino: nat, j: nat)
    requires GoodView(sb, v) && Dense(v.inodes, v.addr) && Snug(v.inodes, v.addr) && ino < |v.inodes| && j < NINDIRECT
    ensures Place(ino, DblMid(j)) in v.addr && Place(ino, Dbl) in v.addr
    ensures (SINGLES + j * NINDIRECT) * BSIZE < v.inodes[ino].size ==>
      v.addr[Place(ino, DblMid(j))] != 0 && v.addr[Place(ino, Dbl)] != 0
    ensures v.inodes[ino].size < (SINGLES + j * NINDIRECT) * BSIZE ==> v.addr[Place(ino, DblMid(j))] == 0
    ensures v.inodes[ino].size < SINGLES * BSIZE ==> v.addr[Place(ino, Dbl)] == 0
  {
    var mid, bn := Place(ino, DblMid(j)), SINGLES + j * NINDIRECT;
    EntryIs(v.blocks, v.inodes, v.addr, mid);
    assert FirstBlock(mid.slot) == bn && SnugAt(v.inodes, v.addr, mid) && SnugAt(v.inodes, v.addr, Place(ino, Dbl));
    if bn * BSIZE < v.inodes[ino].size {
      assert SlotOf(bn) == DblLeaf(j, 0);
      assert v.addr[Home(ino, bn)] != 0;
      EntryIs(v.blocks, v.inodes, v.addr, Home(ino, bn));
    }
  }

  /** itrunc's panic, by the size of the file: from one byte past the single-indirect blocks until its
      255th second-level block is in use. At the two ends of the range an index block allocated for a
      write that then found no room decides. */
  lemma PanicBySize(sb: Super, v: View, ino: nat)
    requires GoodView(sb, v) && Dense(v.inodes, v.addr) && Snug(v.inodes, v.addr) && ino < |v.inodes|
    ensures Place(ino, Dbl) in v.addr
    ensures var size, lo, hi := v.inodes[ino].size, SINGLES * BSIZE, (SINGLES + (NINDIRECT - 2) * NINDIRECT) * BSIZE;
      size != lo && size != hi ==>
        (v.addr[Place(ino, Dbl)] != 0 && AbsentMids(v.addr, ino, NINDIRECT) >= 2 <==> lo < size < hi)
    ensures v.inodes[ino].size == SINGLES * BSIZE ==>
      (v.addr[Place(ino, Dbl)] != 0 && AbsentMids(v.addr, ino, NINDIRECT) >= 2 <==> v.addr[Place(ino, Dbl)] != 0)
    ensures v.inodes[ino].size == (SINGLES + (NINDIRECT - 2) * NINDIRECT) * BSIZE ==>
      && Place(ino, DblMid(NINDIRECT - 2)) in v.addr
      && (v.addr[Place(ino, Dbl)] != 0 && AbsentMids(v.addr, ino, NINDIRECT) >= 2 <==>
            v.addr[Place(ino, DblMid(NINDIRECT - 2))] == 0)
  {
    var size := v.inodes[ino].size;
    MidBySize(sb, v, ino, 0);
    MidBySize(sb, v, ino, NINDIRECT - 2);
    MidBySize(sb, v, ino, NINDIRECT - 1);
    if size > (SINGLES + (NINDIRECT - 2) * NINDIRECT) * BSIZE {
      MostMids(sb, v, ino, NINDIRECT - 1);
    } else if size == (SINGLES + (NINDIRECT - 2) * NINDIRECT) * BSIZE {
      MostMids(sb, v, ino, NINDIRECT - 2);
    }
  }

  /** itrunc clears block 0's bit in files whose size ends within the 255th second-level block. */
  lemma LossBySize(sb: Super, v: View, ino: nat)
    requires GoodView(sb, v) && Dense(v.inodes, v.addr) && Snug(v.inodes, v.addr) && ino < |v.inodes|
    ensures Place(ino, Dbl) in v.addr
    ensures var size := v.inodes[ino].size;
      var lo, hi := (SINGLES + (NINDIRECT - 2) * NINDIRECT) * BSIZE, (SINGLES + (NINDIRECT - 1) * NINDIRECT) * BSIZE;
      size != lo && size != hi ==>
        (v.addr[Place(ino, Dbl)] != 0 && AbsentMids(v.addr, ino, NINDIRECT) == 1 <==> lo < size < hi)
  {
    var size := v.inodes[ino].size;
    MidBySize(sb, v, ino, 0);
    MidBySize(sb, v, ino, NINDIRECT - 2);
    MidBySize(sb, v, ino, NINDIRECT - 1);
    if size > (SINGLES + (NINDIRECT - 2) * NINDIRECT) * BSIZE {
      MostMids(sb, v, ino, NINDIRECT - 1);
    }
  }

  /** What the size alone decides about truncating. */
  lemma TruncBySize(sb: Super, v: View, ino: nat)
    requires GoodView(sb, v) && Dense(v.inodes, v.addr) && Snug(v.inodes, v.addr) && ino < |v.inodes|
    ensures Place(ino, Dbl) in v.addr
    ensures var size, lo, hi := v.inodes[ino].size, SINGLES * BSIZE, (SINGLES + (NINDIRECT - 2) * NINDIRECT) * BSIZE;
      && (lo < size < hi ==> v.addr[Place(ino, Dbl)] != 0 && AbsentMids(v.addr, ino, NINDIRECT) >= 2)
      && (size < lo ==> v.addr[Place(ino, Dbl)] == 0 || AbsentMids(v.addr, ino, NINDIRECT) == 0)
      && (size > hi ==> v.addr[Place(ino, Dbl)] == 0 || AbsentMids(v.addr, ino, NINDIRECT) <= 1)
  {
    PanicBySize(sb, v, ino);
    LossBySize(sb, v, ino);
  }

  lemma {:induction false} MostMids(sb: Super, v: View, ino: nat, n: nat)
    requires GoodView(sb, v) && Dense(v.inodes, v.addr) && Snug(v.inodes, v.addr) && ino < |v.inodes|
    requires n < NINDIRECT && (n > 0 ==> (SINGLES + (n - 1) * NINDIRECT) * BSIZE < v.inodes[ino].size)
    ensures AbsentMids(v.addr, ino, n) == 0
  {
    if n > 0 {
      MidBySize(sb, v, ino, n - 1);
      MostMids(sb, v, ino, n - 1);
    }
  }

  // ------------------------------------------------------------------ reading

  /** How many bytes a read of n at off finds; a 32-bit overflow of off + n finds none. */
  function Readable(size: nat, off: nat, n: nat): nat {
    if off > size || off + n >= WORD_LIMIT then 0 else Min(n, size - off)
  }

  /** The bytes of ino from off on. */
  ghost function Slice(blocks: seq<Block>, addr: Addrs, ino: nat, off: nat, n: nat): (s: seq<Byte>)
    requires off + n <= MAXSIZE
    ensures |s| == n && forall i :: 0 <= i < n ==> s[i] == FileByte(blocks, addr, ino, off + i)
  {
    if n == 0 then [] else Slice(blocks, addr, ino, off, n - 1) + [FileByte(blocks, addr, ino, off + n - 1)]
  }

  lemma ChunkByte(o: nat, i: nat)
    requires o % BSIZE + i < BSIZE
    ensures (o + i) / BSIZE == o / BSIZE && (o + i) % BSIZE == o % BSIZE + i
  {
  }

  lemma PartByte(blocks: seq<Block>, addr: Addrs, ino: nat, o: nat, k: nat, b: nat)
    requires o + k < MAXSIZE && o % BSIZE + k < BSIZE
    requires Home(ino, o / BSIZE) in addr && 0 != addr[Home(ino, o / BSIZE)] == b < |blocks|
    ensures FileByte(blocks, addr, ino, o + k) == blocks[b][o % BSIZE + k]
  {
    ChunkByte(o, k);
  }

  /** A read extended by what the block of its end offset o holds. */
  lemma SliceChunk(blocks: seq<Block>, addr: Addrs, ino: nat, off: nat, o: nat, m: nat, b: nat, before: seq<Byte>,
                   part: seq<Byte>)
    requires off <= o && o + m <= MAXSIZE && 0 < m && o % BSIZE + m <= BSIZE
    requires Home(ino, o / BSIZE) in addr && 0 != addr[Home(ino, o / BSIZE)] == b < |blocks|
    requires before == Slice(blocks, addr, ino, off, o - off) && part == blocks[b][o % BSIZE..o % BSIZE + m]
    ensures before + part == Slice(blocks, addr, ino, off, o - off + m)
  {
    var r, s, t := o - off, before + part, Slice(blocks, addr, ino, off, o - off + m);
    forall k | 0 <= k < r + m
      ensures s[k] == t[k]
    {
      assert t[k] == FileByte(blocks, addr, ino, off + k);
      if k < r {
        assert s[k] == before[k] == FileByte(blocks, addr, ino, off + k);
      } else {
        var j := k - r;
        PartByte(blocks, addr, ino, o, j, b);
        assert s[k] == part[j] == blocks[b][o % BSIZE + j] && o + j == off + k;
      }
    }
  }

  /** What was written reads back, and no other file reads differently. */
  lemma ReadBack(v: View, w: View, ino: nat, off: nat, bytes: seq<Byte>)
    requires Overlaid(v.blocks, v.addr, w.blocks, w.addr, ino, off, bytes) && off + |bytes| <= MAXSIZE
    ensures Slice(w.blocks, w.addr, ino, off, |bytes|) == bytes
    ensures forall i: nat, o: nat, n: nat {:trigger Slice(w.blocks, w.addr, i, o, n)} ::
              i != ino && o + n <= MAXSIZE ==> Slice(w.blocks, w.addr, i, o, n) == Slice(v.blocks, v.addr, i, o, n)
  {
    forall i: nat, o: nat, n: nat | i != ino && o + n <= MAXSIZE
      ensures Slice(w.blocks, w.addr, i, o, n) == Slice(v.blocks, v.addr, i, o, n)
    {
      var s, t := Slice(w.blocks, w.addr, i, o, n), Slice(v.blocks, v.addr, i, o, n);
      assert forall k :: 0 <= k < n ==> s[k] == FileByte(w.blocks, w.addr, i, o + k) == t[k];
    }
  }

  function Max0(n: int): nat { if n < 0 then 0 else n }

  /** After src[..i], a chunk of n1 of which r bytes were reported. */
  ghost predicate Extends(src: seq<Byte>, i: nat, r: nat, n1: nat, laid: seq<Byte>) {
    i + r <= |src| && (laid == src[..i + r] || (r < n1 && laid == src && |src| < i + n1))
  }

  lemma ChunkLaid(src: seq<Byte>, i: nat, r: nat, n1: nat, why: Stop, laid: seq<Byte>)
    requires i + r <= |src| && (why.Fault? ==> r < n1 && |src| < i + n1) && laid == src[..i] + Laid(src[i..], r, why)
    ensures Extends(src, i, r, n1, laid)
  {
    if why.Fault? {
      assert laid == src[..i] + src[i..] == src;
    } else {
      assert src[i..][..r] == src[i..i + r];
      assert laid == src[..i] + src[i..i + r] == src[..i + r];
    }
  }
}
