/** Truncation seen as progress through one inode's tree: which blocks have been
    released once every slot below a rank has been visited. */
module FsTrunc {
  import opened Blocks
  import opened Bitmap
  import opened FsTree

  /** The order in which itrunc visits slots. */
  function Rank(s: Slot): nat {
    match s
    case Direct(i) => i
    case IndLeaf(j) => NDIRECT + j
    case Ind => NDIRECT + NINDIRECT
    case DblLeaf(j, k) => SINGLE_END + j * (NINDIRECT + 1) + k
    case DblMid(j) => SINGLE_END + j * (NINDIRECT + 1) + NINDIRECT
    case Dbl => SINGLE_END + NINDIRECT * (NINDIRECT + 1)
  }

  const SINGLE_END: nat := NDIRECT + NINDIRECT + 1
  const LAST: nat := SINGLE_END + NINDIRECT * (NINDIRECT + 1) + 1

  lemma RankInjective(s: Slot, t: Slot)
    requires GoodSlot(s) && GoodSlot(t) && Rank(s) == Rank(t)
    ensures s == t
  {
  }

  lemma RankBound(s: Slot)
    requires GoodSlot(s)
    ensures Rank(s) < LAST
  {
  }

  /** Block c is held by a slot of ino that has been visited. */
  predicate Gone(owner: map<nat, Place>, ino: nat, t: nat, c: nat) {
    c in owner && owner[c].ino == ino && Rank(owner[c].slot) < t
  }

  /** The bitmap after every slot of ino ranked below t was released; `lost`: block 0's bit was cleared too. */
  ghost predicate Released(sb: Super, from: seq<Block>, blocks: seq<Block>, owner: map<nat, Place>, ino: nat, t: nat,
                           lost: bool) {
    && |blocks| == |from| == sb.size
    && (forall c :: sb.nmeta <= c < |from| ==> blocks[c] == from[c])
    && (|blocks| > 0 ==> blocks[0] == from[0])
    && (forall c: nat {:trigger Marked(blocks, sb.bmapstart, c)} :: c < sb.size ==>
          (Marked(blocks, sb.bmapstart, c) <==>
           Marked(from, sb.bmapstart, c) && !Gone(owner, ino, t, c) && !(lost && c == 0)))
  }

  ghost predicate AbsentRange(addr: Addrs, ino: nat, t: nat, u: nat) {
    forall pl: Place {:trigger addr[pl]} :: pl in addr && pl.ino == ino && t <= Rank(pl.slot) < u ==> addr[pl] == 0
  }

  /** Absent slots hold nothing to release. */
  lemma SkipAbsent(sb: Super, from: seq<Block>, blocks: seq<Block>, addr: Addrs, owner: map<nat, Place>, ino: nat,
                   t: nat, u: nat, lost: bool)
    requires Owned(addr, owner, sb.nmeta, sb.size) && t <= u && AbsentRange(addr, ino, t, u)
    requires Released(sb, from, blocks, owner, ino, t, lost)
    ensures Released(sb, from, blocks, owner, ino, u, lost)
  {
    forall c: nat | c < sb.size
      ensures Gone(owner, ino, u, c) ==> Gone(owner, ino, t, c)
    {
      if Gone(owner, ino, u, c) {
        assert addr[owner[c]] == c && c != 0;
      }
    }
  }

  lemma OneAbsent(inodes: seq<Inode>, blocks: seq<Block>, addr: Addrs, pl: Place)
    requires Refines(blocks, inodes, addr) && pl in addr && addr[pl] == 0
    ensures AbsentRange(addr, pl.ino, Rank(pl.slot), Rank(pl.slot) + 1)
  {
    forall q: Place | q in addr && q.ino == pl.ino && Rank(pl.slot) <= Rank(q.slot) < Rank(pl.slot) + 1
      ensures addr[q] == 0
    {
      RankInjective(q.slot, pl.slot);
    }
  }

  /** Releasing the block of the slot at rank t. */
  lemma ReleaseOne(sb: Super, from: seq<Block>, blocks: seq<Block>, blocks': seq<Block>, inodes: seq<Inode>,
                   addr: Addrs, owner: map<nat, Place>, pl: Place, lost: bool)
    requires Refines(from, inodes, addr) && Owned(addr, owner, sb.nmeta, sb.size) && pl in addr && addr[pl] != 0
    requires Released(sb, from, blocks, owner, pl.ino, Rank(pl.slot), lost)
    requires
      && |blocks'| == |blocks| && (forall c :: sb.nmeta <= c < |blocks| ==> blocks'[c] == blocks[c])
      && (|blocks| > 0 ==> blocks'[0] == blocks[0])
    requires forall c: nat {:trigger Marked(blocks', sb.bmapstart, c)} ::
               (Marked(blocks', sb.bmapstart, c) <==> c != addr[pl] && Marked(blocks, sb.bmapstart, c))
    ensures Released(sb, from, blocks', owner, pl.ino, Rank(pl.slot) + 1, lost)
  {
    forall c: nat | c < sb.size
      ensures Gone(owner, pl.ino, Rank(pl.slot) + 1, c) <==> c == addr[pl] || Gone(owner, pl.ino, Rank(pl.slot), c)
    {
      assert owner[addr[pl]] == pl;
      if c in owner && owner[c].ino == pl.ino && Rank(owner[c].slot) == Rank(pl.slot) {
        assert owner[c] in addr && addr[owner[c]] == c;
        RankInjective(owner[c].slot, pl.slot);
      }
    }
  }

  /** Releasing block 0, which an absent second-level entry names. */
  lemma ReleaseZero(sb: Super, from: seq<Block>, blocks: seq<Block>, blocks': seq<Block>, owner: map<nat, Place>,
                    ino: nat, t: nat)
    requires Released(sb, from, blocks, owner, ino, t, false) && 0 !in owner
    requires
      && |blocks'| == |blocks| && (forall c :: sb.nmeta <= c < |blocks| ==> blocks'[c] == blocks[c])
      && (|blocks| > 0 ==> blocks'[0] == blocks[0])
    requires forall c: nat {:trigger Marked(blocks', sb.bmapstart, c)} ::
               (Marked(blocks', sb.bmapstart, c) <==> c != 0 && Marked(blocks, sb.bmapstart, c))
    ensures Released(sb, from, blocks', owner, ino, t, true)
  {
  }

  /** The bitmap blocks whose bits change when the visited slots of ino are released. */
  function BitsGone(sb: Super, owner: map<nat, Place>, ino: nat, t: nat): set<nat> {
    set c | c in owner && Gone(owner, ino, t, c) :: BitBlock(sb.bmapstart, c)
  }

  /** What releasing them logs, block 0's bitmap block included when its bit was cleared. */
  ghost predicate Recorded(sb: Super, from: set<nat>, logged: set<nat>, owner: map<nat, Place>, ino: nat, t: nat,
                           lost: bool) {
    logged == from + BitsGone(sb, owner, ino, t) + if lost then {BitBlock(sb.bmapstart, 0)} else {}
  }

  lemma RecordSkip(sb: Super, from: set<nat>, logged: set<nat>, addr: Addrs, owner: map<nat, Place>, ino: nat, t: nat,
                   u: nat, lost: bool)
    requires Owned(addr, owner, sb.nmeta, sb.size) && t <= u && AbsentRange(addr, ino, t, u)
    requires Recorded(sb, from, logged, owner, ino, t, lost)
    ensures Recorded(sb, from, logged, owner, ino, u, lost)
  {
    forall c | c in owner
      ensures Gone(owner, ino, u, c) <==> Gone(owner, ino, t, c)
    {
      assert addr[owner[c]] == c && c != 0;
    }
    assert BitsGone(sb, owner, ino, u) == BitsGone(sb, owner, ino, t);
  }

  lemma RecordOne(sb: Super, from: set<nat>, logged: set<nat>, blocks: seq<Block>, inodes: seq<Inode>, addr: Addrs,
                  owner: map<nat, Place>, pl: Place, lost: bool)
    requires Refines(blocks, inodes, addr) && Owned(addr, owner, sb.nmeta, sb.size) && pl in addr && addr[pl] != 0
    requires Recorded(sb, from, logged, owner, pl.ino, Rank(pl.slot), lost)
    ensures Recorded(sb, from, logged + {BitBlock(sb.bmapstart, addr[pl])}, owner, pl.ino, Rank(pl.slot) + 1, lost)
  {
    var b, t := addr[pl], Rank(pl.slot);
    forall c | c in owner
      ensures Gone(owner, pl.ino, t + 1, c) <==> c == b || Gone(owner, pl.ino, t, c)
    {
      assert owner[b] == pl && addr[owner[c]] == c;
      if owner[c].ino == pl.ino && Rank(owner[c].slot) == t {
        RankInjective(owner[c].slot, pl.slot);
      }
    }
    assert BitsGone(sb, owner, pl.ino, t + 1) == BitsGone(sb, owner, pl.ino, t) + {BitBlock(sb.bmapstart, b)};
  }

  /** The whole tree released: the bitmap blocks of everything ino held. */
  lemma RecordAll(sb: Super, blocks: seq<Block>, inodes: seq<Inode>, addr: Addrs, owner: map<nat, Place>, ino: nat)
    requires Refines(blocks, inodes, addr) && Owned(addr, owner, sb.nmeta, sb.size)
    ensures BitsGone(sb, owner, ino, LAST) == HeldBits(sb, owner, ino)
  {
    forall c | c in owner
      ensures Gone(owner, ino, LAST, c) <==> c in Held(owner, ino)
    {
      assert owner[c] in addr;
      RankBound(owner[c].slot);
    }
  }

  /** The block about to be released is still marked. */
  lemma StillMarked(sb: Super, from: seq<Block>, blocks: seq<Block>, addr: Addrs, owner: map<nat, Place>, pl: Place,
                    lost: bool)
    requires Owned(addr, owner, sb.nmeta, sb.size) && Bits(sb, from, owner) && pl in addr && addr[pl] != 0
    requires Released(sb, from, blocks, owner, pl.ino, Rank(pl.slot), lost)
    ensures addr[pl] < sb.size && Marked(blocks, sb.bmapstart, addr[pl])
  {
    assert owner[addr[pl]] == pl;
    assert Marked(from, sb.bmapstart, addr[pl]);
  }

  /** Second-level entries absent among the first n of a present double-indirect block. */
  ghost function AbsentMids(addr: Addrs, ino: nat, n: nat): nat {
    if n == 0 then
      0
    else
      var pl := Place(ino, DblMid(n - 1));
      AbsentMids(addr, ino, n - 1) + if pl in addr && addr[pl] == 0 then 1 else 0
  }

  /** None of them absent, or one with its 0 freed as a block. */
  ghost predicate AtMostOne(addr: Addrs, ino: nat, n: nat, lost: bool) {
    AbsentMids(addr, ino, n) == if lost then 1 else 0
  }

  lemma AbsentMidsUp(addr: Addrs, ino: nat, n: nat, m: nat)
    requires n <= m
    ensures AbsentMids(addr, ino, n) <= AbsentMids(addr, ino, m)
  {
    if n < m {
      AbsentMidsUp(addr, ino, n, m - 1);
    }
  }

  /** Absent double-indirect block: nothing below it. */
  lemma NoDouble(blocks: seq<Block>, inodes: seq<Inode>, addr: Addrs, ino: nat)
    requires Refines(blocks, inodes, addr) && Place(ino, Dbl) in addr && addr[Place(ino, Dbl)] == 0
    ensures AbsentRange(addr, ino, SINGLE_END, LAST)
  {
    forall q: Place | q in addr && q.ino == ino && SINGLE_END <= Rank(q.slot) < LAST
      ensures addr[q] == 0
    {
      if !IsTop(q.slot) {
        EntryIs(blocks, inodes, addr, q);
        if q.slot.DblLeaf? {
          EntryIs(blocks, inodes, addr, Place(ino, Parent(q.slot)));
        }
      }
    }
  }

  lemma NoSingle(blocks: seq<Block>, inodes: seq<Inode>, addr: Addrs, ino: nat)
    requires Refines(blocks, inodes, addr) && Place(ino, Ind) in addr && addr[Place(ino, Ind)] == 0
    ensures AbsentRange(addr, ino, NDIRECT, SINGLE_END)
  {
    forall q: Place | q in addr && q.ino == ino && NDIRECT <= Rank(q.slot) < SINGLE_END
      ensures addr[q] == 0
    {
      if !IsTop(q.slot) {
        EntryIs(blocks, inodes, addr, q);
      }
    }
  }

  // ------------------------------------------------- the tree after truncation

  ghost function Emptied(addr: Addrs, ino: nat): Addrs {
    imap pl | pl in addr :: if pl.ino == ino then 0 else addr[pl]
  }

  function Disowned(owner: map<nat, Place>, ino: nat): map<nat, Place> {
    map b | b in owner && owner[b].ino != ino :: owner[b]
  }

  function EmptyInode(): (ip: Inode)
    ensures GoodInode(ip)
  {
    Inode(seq(NDIRECT + 2, _ => 0), 0)
  }

  lemma EmptiedRefines(blocks: seq<Block>, blocks': seq<Block>, inodes: seq<Inode>, addr: Addrs, owner: map<nat, Place>,
                       lo: nat, ino: nat, inodes': seq<Inode>, addr': Addrs)
    requires Refines(blocks, inodes, addr) && Owned(addr, owner, lo, |blocks|) && SameIndex(blocks, blocks', owner)
    requires ino < |inodes| && inodes' == inodes[ino := EmptyInode()] && addr' == Emptied(addr, ino)
    ensures Refines(blocks', inodes', addr')
  {
    forall q | q in addr'
      ensures AddrAt(blocks', inodes', q) == addr'[q]
    {
      if q.ino != ino {
        SameAddr(blocks, blocks', inodes, addr, owner, lo, q);
        assert AddrAt(blocks', inodes', q) == AddrAt(blocks', inodes, q);
      }
    }
  }

  lemma EmptiedOwned(addr: Addrs, owner: map<nat, Place>, lo: nat, hi: nat, ino: nat)
    requires Owned(addr, owner, lo, hi)
    ensures Owned(Emptied(addr, ino), Disowned(owner, ino), lo, hi)
  {
  }

  /** Everything ino held is free again, and nothing else; `lost` adds block 0, which is metadata. */
  lemma EmptiedFree(sb: Super, from: seq<Block>, blocks: seq<Block>, inodes: seq<Inode>, addr: Addrs,
                    owner: map<nat, Place>, ino: nat, lost: bool)
    requires Ok(sb, from, inodes, addr, owner) && Released(sb, from, blocks, owner, ino, LAST, lost)
    ensures FreeSet(sb, blocks) == FreeSet(sb, from) + Held(owner, ino) + (if lost then {0} else {})
    ensures !lost ==> Bits(sb, blocks, Disowned(owner, ino))
  {
    forall c: nat | c < sb.size
      ensures Gone(owner, ino, LAST, c) <==> c in owner && owner[c].ino == ino
    {
      if c in owner {
        assert owner[c] in addr;
        RankBound(owner[c].slot);
      }
    }
    forall c | c in owner
      ensures c < sb.size
    {
      assert owner[c] in addr;
    }
    assert Marked(from, sb.bmapstart, 0);
  }

  /** The blocks of ino's tree. */
  function Held(owner: map<nat, Place>, ino: nat): set<nat> {
    set b | b in owner && owner[b].ino == ino
  }

  /** The bitmap blocks their bits lie in. */
  function HeldBits(sb: Super, owner: map<nat, Place>, ino: nat): set<nat> {
    set c | c in Held(owner, ino) :: BitBlock(sb.bmapstart, c)
  }
}
