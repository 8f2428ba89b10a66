/** File contents: the byte at each offset, and what one block store does to it. */
module FsData {
  import opened Common
  import opened Blocks
  import opened FsTree

  const MAXSIZE: nat := MAXFILE * BSIZE

  /** Where file block bn of an inode hangs. */
  function Home(ino: nat, bn: nat): (pl: Place)
    requires bn < MAXFILE
    ensures GoodSlot(pl.slot) && !IsIndex(pl.slot)
  {
    Place(ino, SlotOf(bn))
  }

  /** The byte of a file at offset x; holes and the space beyond the end read as the block holds them. */
  ghost function FileByte(blocks: seq<Block>, addr: Addrs, ino: nat, x: nat): Byte
    requires x < MAXSIZE
  {
    DataAt(blocks, addr, Home(ino, x / BSIZE))[x % BSIZE]
  }

  /** Every block below the end of a file is mapped. */
  ghost predicate Dense(inodes: seq<Inode>, addr: Addrs) {
    && (forall i :: 0 <= i < |inodes| ==> inodes[i].size <= MAXSIZE)
    && (forall ino: nat, bn: nat {:trigger Home(ino, bn)} ::
          ino < |inodes| && bn < MAXFILE && bn * BSIZE < inodes[ino].size ==>
            Home(ino, bn) in addr && addr[Home(ino, bn)] != 0)
  }

  /** The first file block on whose way a slot lies. */
  function FirstBlock(s: Slot): nat {
    match s
    case Direct(i) => i
    case Ind => NDIRECT
    case IndLeaf(j) => NDIRECT + j
    case Dbl => NDIRECT + NINDIRECT
    case DblMid(j) => NDIRECT + NINDIRECT + j * NINDIRECT
    case DblLeaf(j, k) => NDIRECT + NINDIRECT + j * NINDIRECT + k
  }

  /** No file holds a block that lies wholly beyond its end. */
  ghost predicate Snug(inodes: seq<Inode>, addr: Addrs) {
    forall pl {:trigger SnugAt(inodes, addr, pl)} :: SnugAt(inodes, addr, pl)
  }

  ghost predicate SnugAt(inodes: seq<Inode>, addr: Addrs, pl: Place) {
    pl in addr && addr[pl] != 0 && pl.ino < |inodes| ==> FirstBlock(pl.slot) * BSIZE <= inodes[pl.ino].size
  }

  /** From one state to the next, `bytes` were laid over ino's contents at off; every other byte of every
      file is kept. */
  ghost predicate Overlaid(blocks: seq<Block>, addr: Addrs, blocks': seq<Block>, addr': Addrs, ino: nat, off: nat,
                           bytes: seq<Byte>) {
    forall i: nat, x: nat {:trigger FileByte(blocks', addr', i, x)} :: x < MAXSIZE ==>
      FileByte(blocks', addr', i, x) ==
      if i == ino && off <= x < off + |bytes| then bytes[x - off] else FileByte(blocks, addr, i, x)
  }

  /** A block with `bytes` copied in at r. */
  function Splice(b: Block, r: nat, bytes: seq<Byte>): (c: Block)
    requires r + |bytes| <= BSIZE
    ensures forall y :: 0 <= y < BSIZE ==> c[y] == if r <= y < r + |bytes| then bytes[y - r] else b[y]
  {
    b[..r] + bytes + b[r + |bytes|..]
  }

  lemma SameBytes(blocks: seq<Block>, addr: Addrs, blocks': seq<Block>, addr': Addrs, ino: nat, off: nat)
    requires SameData(blocks, addr, blocks', addr')
    ensures Overlaid(blocks, addr, blocks', addr', ino, off, [])
  {
    forall i: nat, x: nat | x < MAXSIZE
      ensures FileByte(blocks', addr', i, x) == FileByte(blocks, addr, i, x)
    {
      assert DataAt(blocks', addr', Home(i, x / BSIZE)) == DataAt(blocks, addr, Home(i, x / BSIZE));
    }
  }

  lemma OverlaidTwice(b0: seq<Block>, a0: Addrs, b1: seq<Block>, a1: Addrs, b2: seq<Block>, a2: Addrs, ino: nat,
                      off: nat, s: seq<Byte>, t: seq<Byte>)
    requires Overlaid(b0, a0, b1, a1, ino, off, s) && Overlaid(b1, a1, b2, a2, ino, off + |s|, t)
    ensures Overlaid(b0, a0, b2, a2, ino, off, s + t)
  {
    forall i: nat, x: nat | x < MAXSIZE
      ensures FileByte(b2, a2, i, x) ==
              if i == ino && off <= x < off + |s + t| then (s + t)[x - off] else FileByte(b0, a0, i, x)
    {
      assert FileByte(b1, a1, i, x) == if i == ino && off <= x < off + |s| then s[x - off] else FileByte(b0, a0, i, x);
    }
  }

  /** A store to the block of one data slot changes that slot's data alone. */
  lemma StoreData(blocks: seq<Block>, addr: Addrs, owner: map<nat, Place>, lo: nat, pl: Place, c: Block,
                  blocks': seq<Block>, q: Place)
    requires
      && Owned(addr, owner, lo, |blocks|) && pl in addr && addr[pl] != 0 && addr[pl] < |blocks|
      && blocks' == blocks[addr[pl] := c]
    ensures DataAt(blocks', addr, q) == if q == pl then c else DataAt(blocks, addr, q)
  {
    if q in addr && addr[q] != 0 {
      assert owner[addr[q]] == q;
    }
  }

  /** Copying a chunk into the block that holds offset o lays it over the file there. */
  lemma ChunkStored(blocks: seq<Block>, addr: Addrs, owner: map<nat, Place>, lo: nat, ino: nat, o: nat,
                    bytes: seq<Byte>, blocks': seq<Block>)
    requires Owned(addr, owner, lo, |blocks|) && o < MAXSIZE && o % BSIZE + |bytes| <= BSIZE
    requires Home(ino, o / BSIZE) in addr && 0 != addr[Home(ino, o / BSIZE)] < |blocks|
    requires blocks' == blocks[addr[Home(ino, o / BSIZE)] := Splice(blocks[addr[Home(ino, o / BSIZE)]], o % BSIZE,
                                                                    bytes)]
    ensures Overlaid(blocks, addr, blocks', addr, ino, o, bytes)
  {
    var pl := Home(ino, o / BSIZE);
    var b := addr[pl];
    forall i: nat, x: nat | x < MAXSIZE
      ensures FileByte(blocks', addr, i, x) ==
              if i == ino && o <= x < o + |bytes| then bytes[x - o] else FileByte(blocks, addr, i, x)
    {
      StoreData(blocks, addr, owner, lo, pl, Splice(blocks[b], o % BSIZE, bytes), blocks', Home(i, x / BSIZE));
      if Home(i, x / BSIZE) == pl {
        SlotOfInjective(x / BSIZE, o / BSIZE);
        ChunkPosition(o, x, |bytes|);
      } else if i == ino {
        ChunkElsewhere(o, x, |bytes|);
      }
    }
  }

  lemma ChunkPosition(o: nat, x: nat, m: nat)
    requires x / BSIZE == o / BSIZE && o % BSIZE + m <= BSIZE
    ensures o <= x < o + m <==> o % BSIZE <= x % BSIZE < o % BSIZE + m
    ensures x - o == x % BSIZE - o % BSIZE
  {
  }

  lemma ChunkElsewhere(o: nat, x: nat, m: nat)
    requires x / BSIZE != o / BSIZE && o % BSIZE + m <= BSIZE
    ensures !(o <= x < o + m)
  {
  }

  /** Storing file data keeps every structural invariant. */
  lemma StoreOk(sb: Super, blocks: seq<Block>, inodes: seq<Inode>, addr: Addrs, owner: map<nat, Place>, pl: Place,
                c: Block, blocks': seq<Block>)
    requires
      && Ok(sb, blocks, inodes, addr, owner) && pl in addr && !IsIndex(pl.slot) && 0 != addr[pl] < |blocks|
      && blocks' == blocks[addr[pl] := c]
    ensures
      && Ok(sb, blocks', inodes, addr, owner) && FreeSet(sb, blocks') == FreeSet(sb, blocks) && blocks'[0] == blocks[0]
  {
    assert owner[addr[pl]] == pl;
    ElsewhereRefines(blocks, blocks', inodes, addr, owner, sb.nmeta);
    SameBits(sb, blocks, blocks');
  }

  ghost predicate DenseTo(addr: Addrs, ino: nat, x: nat) {
    forall bn: nat {:trigger Home(ino, bn)} ::
      bn < MAXFILE && bn * BSIZE < x ==> Home(ino, bn) in addr && addr[Home(ino, bn)] != 0
  }

  lemma DenseChunk(addr: Addrs, ino: nat, o: nat, m: nat)
    requires DenseTo(addr, ino, o) && o < MAXSIZE && o % BSIZE + m <= BSIZE
    requires Home(ino, o / BSIZE) in addr && addr[Home(ino, o / BSIZE)] != 0
    ensures DenseTo(addr, ino, o + m)
  {
    forall bn: nat | bn < MAXFILE && bn * BSIZE < o + m
      ensures bn * BSIZE < o || bn == o / BSIZE
    {
    }
  }

  /** The number of blocks that hold the first x bytes. */
  function Ceil(x: nat): nat { (x + BSIZE - 1) / BSIZE }

  lemma CeilChunk(o: nat, m: nat)
    requires 0 < m && o % BSIZE + m <= BSIZE
    ensures Ceil(o) <= o / BSIZE + 1 == Ceil(o + m)
  {
  }

  // ------------------------------------------- the blocks one write can log

  /** The slots bmap passes through to reach a data slot. */
  function Path(s: Slot): set<Slot> {
    match s
    case IndLeaf(_) => {Ind, s}
    case DblLeaf(j, _) => {Dbl, DblMid(j), s}
    case _ => {s}
  }

  /** The slots on the paths of file blocks lo to hi - 1. */
  function Paths(lo: nat, hi: nat): set<Slot> {
    if lo >= hi || hi > MAXFILE then {} else Paths(lo, hi - 1) + Path(SlotOf(hi - 1))
  }

  lemma PathsHas(lo: nat, bn: nat)
    requires lo <= bn < MAXFILE
    ensures Path(SlotOf(bn)) <= Paths(lo, bn + 1)
  {
  }

  lemma PathsUp(lo: nat, mid: nat, hi: nat)
    requires mid <= hi <= MAXFILE
    ensures Paths(lo, mid) <= Paths(lo, hi)
  {
    if mid < hi && lo < hi {
      PathsUp(lo, mid, hi - 1);
    }
  }

  /** A slot on the way to a file block comes no later than it. */
  lemma {:induction false} PathsFirst(lo: nat, hi: nat, s: Slot)
    requires s in Paths(lo, hi)
    ensures FirstBlock(s) < hi
  {
    if s !in Path(SlotOf(hi - 1)) {
      PathsFirst(lo, hi - 1, s);
    } else {
      PathFirst(hi - 1, s);
    }
  }

  lemma PathFirst(bn: nat, s: Slot)
    requires bn < MAXFILE && s in Path(SlotOf(bn))
    ensures FirstBlock(s) <= bn
  {
  }

  /** Index slots on the paths of at most four consecutive file blocks: never more than three. */
  function IndexSlots(lo: nat): (s: set<Slot>)
    requires lo < MAXFILE
    ensures |s| <= 3
  {
    if lo < NDIRECT then {Ind}
    else if lo < NDIRECT + NINDIRECT then {Ind, Dbl, DblMid(0)}
    else {Dbl, DblMid((lo - NDIRECT - NINDIRECT) / NINDIRECT), DblMid((lo - NDIRECT - NINDIRECT) / NINDIRECT + 1)}
  }

  lemma PathWithin(lo: nat, bn: nat)
    requires lo <= bn < lo + 4 && bn < MAXFILE
    ensures Path(SlotOf(bn)) <= IndexSlots(lo) + {SlotOf(bn)}
  {
  }

  /** Four consecutive file blocks use at most four data slots and three index slots. */
  lemma PathsSize(lo: nat, hi: nat)
    requires lo <= hi <= lo + 4 && hi <= MAXFILE && lo < MAXFILE
    ensures |Paths(lo, hi)| <= 7
  {
    var idx := IndexSlots(lo);
    forall bn: nat | lo <= bn < hi
      ensures Path(SlotOf(bn)) <= idx + {SlotOf(bn)}
    {
      PathWithin(lo, bn);
    }
    var data := PathsWithin(idx, lo, hi);
    SubsetSize(Paths(lo, hi), idx + data);
  }

  lemma PathsWithin(idx: set<Slot>, lo: nat, hi: nat) returns (data: set<Slot>)
    requires lo <= hi <= MAXFILE
    requires forall bn: nat {:trigger Path(SlotOf(bn))} :: lo <= bn < hi ==> Path(SlotOf(bn)) <= idx + {SlotOf(bn)}
    ensures |data| <= hi - lo && Paths(lo, hi) <= idx + data
  {
    if lo == hi {
      data := {};
    } else {
      var rest := PathsWithin(idx, lo, hi - 1);
      var last := SlotOf(hi - 1);
      data := rest + {last};
      AddPath(idx, Paths(lo, hi - 1), Path(last), rest, last);
    }
  }

  lemma AddPath(idx: set<Slot>, paths: set<Slot>, path: set<Slot>, rest: set<Slot>, last: Slot)
    requires paths <= idx + rest && path <= idx + {last}
    ensures paths + path <= idx + (rest + {last}) && |rest + {last}| <= |rest| + 1
  {
  }
}
