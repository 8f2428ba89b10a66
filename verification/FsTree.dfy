/** The block trees of inodes: direct, single-indirect and double-indirect addresses,
    seen as one flat map from places to block numbers, and what single stores do to it. */
module FsTree {
  import opened Blocks
  import opened Bitmap

  const NDIRECT: nat := 11
  const NINDIRECT: nat := NWORDS
  const MAXFILE: nat := NDIRECT + NINDIRECT + NINDIRECT * NINDIRECT

  /** A pointer of an inode's tree. */
  datatype Slot =
    | Direct(i: nat)
    | Ind                       // the indirect block
    | IndLeaf(j: nat)           // entry j of the indirect block
    | Dbl                       // the double-indirect block
    | DblMid(j: nat)            // entry j of the double-indirect block
    | DblLeaf(j: nat, k: nat)   // entry k of the block under entry j

  predicate GoodSlot(s: Slot) {
    match s
    case Direct(i) => i < NDIRECT
    case Ind => true
    case IndLeaf(j) => j < NINDIRECT
    case Dbl => true
    case DblMid(j) => j < NINDIRECT
    case DblLeaf(j, k) => j < NINDIRECT && k < NINDIRECT
  }

  /** The slot of the bn-th block of a file. */
  function SlotOf(bn: nat): (s: Slot)
    requires bn < MAXFILE
    ensures GoodSlot(s)
  {
    if bn < NDIRECT then Direct(bn)
    else if bn < NDIRECT + NINDIRECT then IndLeaf(bn - NDIRECT)
    else DblLeaf((bn - NDIRECT - NINDIRECT) / NINDIRECT, (bn - NDIRECT - NINDIRECT) % NINDIRECT)
  }

  lemma SlotOfInjective(bn: nat, cn: nat)
    requires bn < MAXFILE && cn < MAXFILE && SlotOf(bn) == SlotOf(cn)
    ensures bn == cn
  {
  }

  /** Slots kept in the inode itself, at index TopIndex of ip->addrs. */
  predicate IsTop(s: Slot) { s.Direct? || s.Ind? || s.Dbl? }

  function TopIndex(s: Slot): (t: nat)
    requires IsTop(s) && GoodSlot(s)
    ensures t < NDIRECT + 2
  {
    match s case Direct(i) => i case Ind => NDIRECT case Dbl => NDIRECT + 1
  }

  /** Slots whose block holds further pointers. */
  predicate IsIndex(s: Slot) { s.Ind? || s.Dbl? || s.DblMid? }

  /** Slots kept in an index block: whose, and at which word. */
  function Parent(s: Slot): Slot
    requires !IsTop(s)
  {
    match s case IndLeaf(_) => Ind case DblMid(_) => Dbl case DblLeaf(j, _) => DblMid(j)
  }

  function WordIn(s: Slot): nat
    requires !IsTop(s)
  {
    match s case IndLeaf(j) => j case DblMid(j) => j case DblLeaf(_, k) => k
  }

  datatype Inode = Inode(addrs: seq<nat>, size: nat)

  predicate GoodInode(ip: Inode) {
    |ip.addrs| == NDIRECT + 2 && forall i :: 0 <= i < |ip.addrs| ==> ip.addrs[i] < WORD_LIMIT
  }

  datatype Place = Place(ino: nat, slot: Slot)

  /** Word i of block b, 0 where there is no block. */
  function Word(blocks: seq<Block>, b: nat, i: nat): nat {
    if b == 0 || b >= |blocks| || i >= NWORDS then 0 else GetWord(blocks[b], i)
  }

  function TopAddr(inodes: seq<Inode>, ino: nat, t: nat): nat {
    if ino < |inodes| && t < |inodes[ino].addrs| then inodes[ino].addrs[t] else 0
  }

  /** The block number a place holds, reached the way bmap reaches it. */
  function AddrAt(blocks: seq<Block>, inodes: seq<Inode>, pl: Place): nat {
    match pl.slot
    case Direct(i) => if i < NDIRECT then TopAddr(inodes, pl.ino, i) else 0
    case Ind => TopAddr(inodes, pl.ino, NDIRECT)
    case IndLeaf(j) => Word(blocks, TopAddr(inodes, pl.ino, NDIRECT), j)
    case Dbl => TopAddr(inodes, pl.ino, NDIRECT + 1)
    case DblMid(j) => Word(blocks, TopAddr(inodes, pl.ino, NDIRECT + 1), j)
    case DblLeaf(j, k) => Word(blocks, Word(blocks, TopAddr(inodes, pl.ino, NDIRECT + 1), j), k)
  }

  type Addrs = imap<Place, nat>

  ghost predicate GoodPlace(inodes: seq<Inode>, pl: Place) {
    pl.ino < |inodes| && GoodSlot(pl.slot)
  }

  /** `addr` is the flat view of the inodes' trees. */
  ghost predicate Refines(blocks: seq<Block>, inodes: seq<Inode>, addr: Addrs) {
    && (forall ino :: 0 <= ino < |inodes| ==> GoodInode(inodes[ino]))
    && (forall pl :: pl in addr <==> GoodPlace(inodes, pl))
    && (forall pl {:trigger AddrAt(blocks, inodes, pl)} :: pl in addr ==> addr[pl] == AddrAt(blocks, inodes, pl))
  }

  /** Exclusive ownership: each nonzero address sits in exactly one place. */
  ghost predicate Owned(addr: Addrs, owner: map<nat, Place>, lo: nat, hi: nat) {
    && (forall b {:trigger owner[b]} ::
          b in owner ==> owner[b] in addr && addr[owner[b]] == b && lo <= b < hi && b != 0)
    && (forall pl {:trigger addr[pl]} :: pl in addr && addr[pl] != 0 ==> addr[pl] in owner && owner[addr[pl]] == pl)
  }

  /** What the superblock says of the disk: `nmeta` leading blocks of metadata, among them the bitmap. */
  datatype Super = Super(size: nat, nmeta: nat, bmapstart: nat)

  predicate GoodSuper(sb: Super, nblocks: nat) {
    && 0 < sb.bmapstart
    && sb.bmapstart + (sb.size + BPB - 1) / BPB <= sb.nmeta
    && sb.nmeta <= sb.size == nblocks <= 0x7fff_e000   // the scan's counter is a C int
  }

  /** The bitmap marks the metadata and the owned blocks, and nothing else. */
  ghost predicate Bits(sb: Super, blocks: seq<Block>, owner: map<nat, Place>) {
    forall b: nat {:trigger Marked(blocks, sb.bmapstart, b)} ::
      b < sb.size ==> (Marked(blocks, sb.bmapstart, b) <==> b < sb.nmeta || b in owner)
  }

  ghost predicate Ok(sb: Super, blocks: seq<Block>, inodes: seq<Inode>, addr: Addrs, owner: map<nat, Place>) {
    && GoodSuper(sb, |blocks|)
    && Refines(blocks, inodes, addr)
    && Owned(addr, owner, sb.nmeta, sb.size)
    && Bits(sb, blocks, owner)
  }

  /** The block a data slot holds; an absent block reads as zeros. */
  ghost function DataAt(blocks: seq<Block>, addr: Addrs, pl: Place): Block {
    if pl in addr then BlockAt(blocks, addr[pl]) else Zeros()
  }

  function BlockAt(blocks: seq<Block>, b: nat): Block {
    if 0 < b < |blocks| then blocks[b] else Zeros()
  }

  /** No file's contents differ. */
  ghost predicate SameData(blocks: seq<Block>, addr: Addrs, blocks': seq<Block>, addr': Addrs) {
    forall pl: Place {:trigger DataAt(blocks', addr', pl)} ::
      !IsIndex(pl.slot) ==> DataAt(blocks', addr', pl) == DataAt(blocks, addr, pl)
  }

  /** An entry of an index block, found through its parent's address. */
  lemma EntryIs(blocks: seq<Block>, inodes: seq<Inode>, addr: Addrs, pl: Place)
    requires Refines(blocks, inodes, addr) && pl in addr && !IsTop(pl.slot)
    ensures Place(pl.ino, Parent(pl.slot)) in addr
    ensures addr[pl] == Word(blocks, addr[Place(pl.ino, Parent(pl.slot))], WordIn(pl.slot))
  {
    var par := Place(pl.ino, Parent(pl.slot));
    assert AddrAt(blocks, inodes, pl) == Word(blocks, AddrAt(blocks, inodes, par), WordIn(pl.slot));
  }

  lemma TopIs(blocks: seq<Block>, inodes: seq<Inode>, addr: Addrs, pl: Place)
    requires Refines(blocks, inodes, addr) && pl in addr && IsTop(pl.slot)
    ensures pl.ino < |inodes| && TopIndex(pl.slot) < |inodes[pl.ino].addrs|
    ensures addr[pl] == inodes[pl.ino].addrs[TopIndex(pl.slot)]
  {
    assert AddrAt(blocks, inodes, pl) == inodes[pl.ino].addrs[TopIndex(pl.slot)];
  }

  // ------------------------------------------------------ effects of stores

  /** Index blocks keep their contents. */
  ghost predicate SameIndex(blocks: seq<Block>, blocks': seq<Block>, owner: map<nat, Place>) {
    && |blocks'| == |blocks|
    && forall b {:trigger owner[b]} :: b in owner && IsIndex(owner[b].slot) && b < |blocks| ==> blocks'[b] == blocks[b]
  }

  lemma SameAddr(blocks: seq<Block>, blocks': seq<Block>, inodes: seq<Inode>, addr: Addrs, owner: map<nat, Place>,
                 lo: nat, pl: Place)
    requires Refines(blocks, inodes, addr) && Owned(addr, owner, lo, |blocks|) && pl in addr
    requires SameIndex(blocks, blocks', owner)
    ensures AddrAt(blocks', inodes, pl) == addr[pl]
    decreases match pl.slot case DblLeaf(_, _) => 1 case _ => 0
  {
    if !IsTop(pl.slot) {
      var par := Place(pl.ino, Parent(pl.slot));
      EntryIs(blocks, inodes, addr, pl);
      if pl.slot.DblLeaf? {
        SameAddr(blocks, blocks', inodes, addr, owner, lo, par);
      } else {
        assert AddrAt(blocks, inodes, par) == addr[par];
      }
      assert addr[par] != 0 ==> owner[addr[par]] == par;
    } else {
      assert AddrAt(blocks, inodes, pl) == addr[pl];
    }
  }

  /** Blocks that no tree points through may change freely. */
  lemma ElsewhereRefines(blocks: seq<Block>, blocks': seq<Block>, inodes: seq<Inode>, addr: Addrs,
                         owner: map<nat, Place>, lo: nat)
    requires Refines(blocks, inodes, addr) && Owned(addr, owner, lo, |blocks|)
    requires SameIndex(blocks, blocks', owner)
    ensures Refines(blocks', inodes, addr)
  {
    forall pl | pl in addr
      ensures AddrAt(blocks', inodes, pl) == addr[pl]
    {
      SameAddr(blocks, blocks', inodes, addr, owner, lo, pl);
    }
  }

  function WithTop(ip: Inode, t: nat, b: nat): Inode
    requires t < |ip.addrs|
  {
    ip.(addrs := ip.addrs[t := b])
  }

  /** Hanging a zeroed block at an absent top-level address. */
  lemma LinkTop(blocks: seq<Block>, inodes: seq<Inode>, addr: Addrs, pl: Place, b: nat, inodes': seq<Inode>,
                addr': Addrs)
    requires Refines(blocks, inodes, addr) && pl in addr && IsTop(pl.slot) && addr[pl] == 0
    requires 0 < b < |blocks| && b < WORD_LIMIT && blocks[b] == Zeros()
    requires pl.ino < |inodes| && TopIndex(pl.slot) < |inodes[pl.ino].addrs|
    requires inodes' == inodes[pl.ino := WithTop(inodes[pl.ino], TopIndex(pl.slot), b)] && addr' == addr[pl := b]
    ensures Refines(blocks, inodes', addr')
  {
    forall q | q in addr'
      ensures AddrAt(blocks, inodes', q) == addr'[q]
    {
      LinkTopAt(blocks, inodes, addr, pl, b, inodes', q);
    }
  }

  lemma ZeroWord(blocks: seq<Block>, b: nat, j: nat)
    requires 0 < b < |blocks| && blocks[b] == Zeros()
    ensures Word(blocks, b, j) == 0
  {
    ZeroWords();
  }

  lemma TopSet(inodes: seq<Inode>, pl: Place, b: nat, inodes': seq<Inode>, ino: nat, t: nat)
    requires pl.ino < |inodes| && IsTop(pl.slot) && GoodSlot(pl.slot) && TopIndex(pl.slot) < |inodes[pl.ino].addrs|
    requires inodes' == inodes[pl.ino := WithTop(inodes[pl.ino], TopIndex(pl.slot), b)]
    ensures TopAddr(inodes', ino, t) == if ino == pl.ino && t == TopIndex(pl.slot) then b else TopAddr(inodes, ino, t)
  {
  }

  lemma LinkTopAt(blocks: seq<Block>, inodes: seq<Inode>, addr: Addrs, pl: Place, b: nat, inodes': seq<Inode>, q: Place)
    requires Refines(blocks, inodes, addr) && pl in addr && IsTop(pl.slot) && addr[pl] == 0 && q in addr
    requires 0 < b < |blocks| && b < WORD_LIMIT && blocks[b] == Zeros()
    requires pl.ino < |inodes| && TopIndex(pl.slot) < |inodes[pl.ino].addrs|
    requires inodes' == inodes[pl.ino := WithTop(inodes[pl.ino], TopIndex(pl.slot), b)]
    ensures AddrAt(blocks, inodes', q) == if q == pl then b else addr[q]
    decreases match q.slot case DblLeaf(_, _) => 1 case _ => 0
  {
    if IsTop(q.slot) {
      TopIs(blocks, inodes, addr, q);
      TopSet(inodes, pl, b, inodes', q.ino, TopIndex(q.slot));
    } else {
      var par := Place(q.ino, Parent(q.slot));
      EntryIs(blocks, inodes, addr, q);
      if q.slot.DblLeaf? {
        LinkTopAt(blocks, inodes, addr, pl, b, inodes', par);
      } else {
        TopIs(blocks, inodes, addr, par);
        TopSet(inodes, pl, b, inodes', q.ino, TopIndex(par.slot));
      }
      EntryAt(blocks, inodes', q);
      ZeroWord(blocks, b, WordIn(q.slot));
    }
  }

  /** An entry's address is read through its parent's. */
  lemma EntryAt(blocks: seq<Block>, inodes: seq<Inode>, q: Place)
    requires !IsTop(q.slot)
    ensures AddrAt(blocks, inodes, q) == Word(blocks, AddrAt(blocks, inodes, Place(q.ino, Parent(q.slot))),
                                              WordIn(q.slot))
  {
  }

  /** Hanging a zeroed block at an absent entry of a present index block. */
  lemma LinkWord(blocks: seq<Block>, blocks': seq<Block>, inodes: seq<Inode>, addr: Addrs, owner: map<nat, Place>,
                 lo: nat, pl: Place, p: nat, b: nat, addr': Addrs)
    requires
      && Refines(blocks, inodes, addr) && Owned(addr, owner, lo, |blocks|) && pl in addr && !IsTop(pl.slot)
      && addr[pl] == 0
    requires p < |blocks| && p != 0 && p in owner && owner[p] == Place(pl.ino, Parent(pl.slot))
    requires 0 < b < |blocks| && b < WORD_LIMIT && blocks[b] == Zeros() && b !in owner
    requires blocks' == blocks[p := PutWord(blocks[p], WordIn(pl.slot), b)] && addr' == addr[pl := b]
    ensures Refines(blocks', inodes, addr')
  {
    forall q | q in addr'
      ensures AddrAt(blocks', inodes, q) == addr'[q]
    {
      LinkWordAt(blocks, blocks', inodes, addr, owner, lo, pl, p, b, q);
    }
  }

  lemma LinkWordAt(blocks: seq<Block>, blocks': seq<Block>, inodes: seq<Inode>, addr: Addrs, owner: map<nat, Place>,
                   lo: nat, pl: Place, p: nat, b: nat, q: Place)
    requires
      && Refines(blocks, inodes, addr) && Owned(addr, owner, lo, |blocks|) && pl in addr && !IsTop(pl.slot)
      && addr[pl] == 0
    requires p < |blocks| && p != 0 && p in owner && owner[p] == Place(pl.ino, Parent(pl.slot))
    requires 0 < b < |blocks| && b < WORD_LIMIT && blocks[b] == Zeros() && b !in owner
    requires blocks' == blocks[p := PutWord(blocks[p], WordIn(pl.slot), b)] && q in addr
    ensures AddrAt(blocks', inodes, q) == if q == pl then b else addr[q]
    decreases match q.slot case DblLeaf(_, _) => 1 case _ => 0
  {
    assert AddrAt(blocks, inodes, q) == addr[q];
    if !IsTop(q.slot) {
      var par := Place(q.ino, Parent(q.slot));
      EntryIs(blocks, inodes, addr, q);
      if q.slot.DblLeaf? {
        LinkWordAt(blocks, blocks', inodes, addr, owner, lo, pl, p, b, par);
      } else {
        assert AddrAt(blocks', inodes, par) == AddrAt(blocks, inodes, par) == addr[par];
      }
      LinkWordEntry(blocks, blocks', addr, owner, lo, pl, p, b, q);
    }
  }

  /** Below the entry's own parent only that entry differs; below the new block all entries are 0;
      elsewhere none differs. */
  lemma LinkWordEntry(blocks: seq<Block>, blocks': seq<Block>, addr: Addrs, owner: map<nat, Place>, lo: nat, pl: Place,
                      p: nat, b: nat, q: Place)
    requires Owned(addr, owner, lo, |blocks|) && pl in addr && !IsTop(pl.slot) && addr[pl] == 0
    requires p < |blocks| && p != 0 && p in owner && owner[p] == Place(pl.ino, Parent(pl.slot))
    requires 0 < b < |blocks| && b < WORD_LIMIT && blocks[b] == Zeros() && b !in owner
    requires GoodSlot(pl.slot) && q in addr && !IsTop(q.slot) && Place(q.ino, Parent(q.slot)) in addr
    requires blocks' == blocks[p := PutWord(blocks[p], WordIn(pl.slot), b)]
    requires addr[q] == Word(blocks, addr[Place(q.ino, Parent(q.slot))], WordIn(q.slot))
    ensures Word(blocks', if Place(q.ino, Parent(q.slot)) == pl then b else addr[Place(q.ino, Parent(q.slot))],
                 WordIn(q.slot))
              == if q == pl then b else addr[q]
  {
    var par := Place(q.ino, Parent(q.slot));
    ZeroWords();
    if par != pl {
      assert addr[par] == p <==> par == owner[p];
    }
  }

  // ------------------------------------------- allocation at the disk level

  /** The disk after block b is marked in use and zeroed. */
  function Allocated(sb: Super, blocks: seq<Block>, b: nat): (r: seq<Block>)
    requires GoodSuper(sb, |blocks|) && b < sb.size
    ensures |r| == |blocks|
  {
    BitBlockBelow(sb, |blocks|, b);
    Mark(blocks, sb.bmapstart, b)[b := Zeros()]
  }

  /** Bitmap blocks are metadata. */
  lemma BitBlockBelow(sb: Super, n: nat, b: nat)
    requires GoodSuper(sb, n) && b < sb.size
    ensures BitBlock(sb.bmapstart, b) < sb.nmeta
  {
  }

  lemma AllocatedBits(sb: Super, blocks: seq<Block>, b: nat, c: nat)
    requires GoodSuper(sb, |blocks|) && sb.nmeta <= b < sb.size && c < sb.size
    ensures Marked(Allocated(sb, blocks, b), sb.bmapstart, c) <==> c == b || Marked(blocks, sb.bmapstart, c)
  {
    BitBlockBelow(sb, |blocks|, b);
    BitBlockBelow(sb, |blocks|, c);
    MarkAt(blocks, sb.bmapstart, b, c);
  }

  /** A free block is no metadata and belongs to no file, so allocating it disturbs no tree. */
  lemma AllocatedRefines(sb: Super, blocks: seq<Block>, inodes: seq<Inode>, addr: Addrs, owner: map<nat, Place>, b: nat,
                         blocks': seq<Block>)
    requires Ok(sb, blocks, inodes, addr, owner)
    requires b < sb.size && !Marked(blocks, sb.bmapstart, b) && blocks' == Allocated(sb, blocks, b)
    ensures sb.nmeta <= b && b !in owner && b != 0 && blocks'[b] == Zeros()
    ensures Refines(blocks', inodes, addr)
    ensures forall c {:trigger owner[c]} :: c in owner ==> blocks'[c] == blocks[c]
  {
    BitBlockBelow(sb, |blocks|, b);
    forall c | c in owner
      ensures blocks'[c] == blocks[c]
    {
      assert owner[c] in addr;
    }
    ElsewhereRefines(blocks, blocks', inodes, addr, owner, sb.nmeta);
  }

  lemma OwnMore(addr: Addrs, owner: map<nat, Place>, lo: nat, hi: nat, pl: Place, b: nat)
    requires Owned(addr, owner, lo, hi) && pl in addr && addr[pl] == 0 && b !in owner && lo <= b < hi && b != 0
    ensures Owned(addr[pl := b], owner[b := pl], lo, hi)
  {
  }

  /** The contents of files after a block is allocated and hung at pl. */
  lemma AllocatedData(blocks: seq<Block>, addr: Addrs, owner: map<nat, Place>, lo: nat, blocks': seq<Block>, pl: Place,
                      b: nat, addr': Addrs)
    requires Owned(addr, owner, lo, |blocks|) && |blocks'| == |blocks|
    requires pl in addr && addr[pl] == 0 && 0 < b < |blocks| && b !in owner && addr' == addr[pl := b]
    requires blocks'[b] == Zeros()
    requires forall c {:trigger owner[c]} :: c in owner && !IsIndex(owner[c].slot) ==> blocks'[c] == blocks[c]
    ensures SameData(blocks, addr, blocks', addr')
  {
    forall q: Place | !IsIndex(q.slot)
      ensures DataAt(blocks', addr', q) == DataAt(blocks, addr, q)
    {
      if q in addr && q != pl && addr[q] != 0 {
        assert owner[addr[q]] == q;
      }
    }
  }

  /** The free blocks of the disk. */
  ghost function FreeSet(sb: Super, blocks: seq<Block>): set<nat> {
    set b: nat | b < sb.size && !Marked(blocks, sb.bmapstart, b)
  }

  ghost predicate MetaMarked(sb: Super, blocks: seq<Block>) {
    forall b: nat {:trigger Marked(blocks, sb.bmapstart, b)} :: b < sb.nmeta ==> Marked(blocks, sb.bmapstart, b)
  }

  lemma AllocatedFree(sb: Super, blocks: seq<Block>, b: nat)
    requires GoodSuper(sb, |blocks|) && MetaMarked(sb, blocks) && b in FreeSet(sb, blocks)
    ensures FreeSet(sb, Allocated(sb, blocks, b)) == FreeSet(sb, blocks) - {b}
  {
    forall c: nat | c < sb.size
      ensures Marked(Allocated(sb, blocks, b), sb.bmapstart, c) <==> c == b || Marked(blocks, sb.bmapstart, c)
    {
      AllocatedBits(sb, blocks, b, c);
    }
  }

  /** Stores outside the metadata leave the bitmap as it is. */
  lemma SameBits(sb: Super, blocks: seq<Block>, blocks': seq<Block>)
    requires GoodSuper(sb, |blocks|) && |blocks'| == |blocks|
    requires forall b :: 0 <= b < sb.nmeta ==> blocks'[b] == blocks[b]
    ensures forall b: nat {:trigger Marked(blocks', sb.bmapstart, b)} :: b < sb.size ==>
              (Marked(blocks', sb.bmapstart, b) <==> Marked(blocks, sb.bmapstart, b))
    ensures FreeSet(sb, blocks') == FreeSet(sb, blocks)
  {
    forall b: nat | b < sb.size
      ensures Marked(blocks', sb.bmapstart, b) <==> Marked(blocks, sb.bmapstart, b)
    {
      BitBlockBelow(sb, |blocks|, b);
    }
  }

  lemma AllocatedOk(sb: Super, blocks: seq<Block>, owner: map<nat, Place>, b: nat, pl: Place)
    requires GoodSuper(sb, |blocks|) && Bits(sb, blocks, owner) && sb.nmeta <= b < sb.size
    ensures Bits(sb, Allocated(sb, blocks, b), owner[b := pl])
  {
    forall c: nat | c < sb.size
      ensures Marked(Allocated(sb, blocks, b), sb.bmapstart, c) <==> c < sb.nmeta || c in owner[b := pl]
    {
      AllocatedBits(sb, blocks, b, c);
    }
  }

  /** A new block hung at a top-level address. */
  lemma GrowTop(sb: Super, blocks: seq<Block>, inodes: seq<Inode>, addr: Addrs, owner: map<nat, Place>, pl: Place,
                b: nat, blocks': seq<Block>, inodes': seq<Inode>, addr': Addrs)
    requires Ok(sb, blocks, inodes, addr, owner) && pl in addr && IsTop(pl.slot) && addr[pl] == 0
    requires b < sb.size && !Marked(blocks, sb.bmapstart, b) && blocks' == Allocated(sb, blocks, b)
    requires pl.ino < |inodes| && TopIndex(pl.slot) < |inodes[pl.ino].addrs|
    requires inodes' == inodes[pl.ino := WithTop(inodes[pl.ino], TopIndex(pl.slot), b)] && addr' == addr[pl := b]
    ensures Ok(sb, blocks', inodes', addr', owner[b := pl]) && SameData(blocks, addr, blocks', addr')
    ensures b !in owner && blocks'[0] == blocks[0]
  {
    BitBlockBelow(sb, |blocks|, b);
    AllocatedRefines(sb, blocks, inodes, addr, owner, b, blocks');
    LinkTop(blocks', inodes, addr, pl, b, inodes', addr');
    OwnMore(addr, owner, sb.nmeta, sb.size, pl, b);
    AllocatedOk(sb, blocks, owner, b, pl);
    AllocatedData(blocks, addr, owner, sb.nmeta, blocks', pl, b, addr');
  }

  /** A new block hung at an entry of index block p. */
  lemma GrowWord(sb: Super, blocks: seq<Block>, inodes: seq<Inode>, addr: Addrs, owner: map<nat, Place>, pl: Place,
                 p: nat, b: nat, mid: seq<Block>, blocks': seq<Block>, addr': Addrs)
    requires Ok(sb, blocks, inodes, addr, owner) && pl in addr && !IsTop(pl.slot) && addr[pl] == 0 && GoodSlot(pl.slot)
    requires p in owner && owner[p] == Place(pl.ino, Parent(pl.slot)) && p < |blocks|
    requires b < sb.size && !Marked(blocks, sb.bmapstart, b) && mid == Allocated(sb, blocks, b)
    requires blocks' == mid[p := PutWord(mid[p], WordIn(pl.slot), b)] && addr' == addr[pl := b]
    ensures Ok(sb, blocks', inodes, addr', owner[b := pl]) && SameData(blocks, addr, blocks', addr')
    ensures FreeSet(sb, blocks') == FreeSet(sb, mid)
    ensures b !in owner && blocks'[0] == blocks[0]
  {
    BitBlockBelow(sb, |blocks|, b);
    AllocatedRefines(sb, blocks, inodes, addr, owner, b, mid);
    assert sb.nmeta <= p && p != 0;
    LinkWord(mid, blocks', inodes, addr, owner, sb.nmeta, pl, p, b, addr');
    OwnMore(addr, owner, sb.nmeta, sb.size, pl, b);
    AllocatedOk(sb, blocks, owner, b, pl);
    SameBits(sb, mid, blocks');
    AllocatedData(blocks, addr, owner, sb.nmeta, blocks', pl, b, addr');
  }
}
