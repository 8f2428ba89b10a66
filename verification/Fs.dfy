/** The inode layer of the file system over the logged disk image: block allocation,
    the mapping of file blocks, truncation, and reading and writing of contents. */
module Fs {
  import opened Common
  import opened Blocks
  import opened Bitmap
  import opened FsTree
  import opened FsData
  import opened FsTrunc
  import opened FsSteps

  /** Everything zero but the bits of the metadata. */
  method Format(sb: Super) returns (blocks: seq<Block>)
    requires GoodSuper(sb, sb.size)
    ensures |blocks| == sb.size && blocks[0] == Zeros()
    ensures forall c: nat :: Marked(blocks, sb.bmapstart, c) <==> c < sb.nmeta
  {
    blocks := seq(sb.size, _ => Zeros());
    NoneMarked(blocks, sb.bmapstart);
    var b := 0;
    while b < sb.nmeta
      invariant b <= sb.nmeta && |blocks| == sb.size && blocks[0] == Zeros()
      invariant forall c: nat :: Marked(blocks, sb.bmapstart, c) <==> c < b
    {
      BitBlockBelow(sb, sb.size, b);
      forall c: nat
        ensures Marked(Mark(blocks, sb.bmapstart, b), sb.bmapstart, c) <==> c < b + 1
      {
        MarkAt(blocks, sb.bmapstart, b, c);
      }
      blocks := Mark(blocks, sb.bmapstart, b);
      b := b + 1;
    }
  }

  class FileSystem {
    const sb: Super
    const inodestart: nat
    var blocks: seq<Block>
    var inodes: seq<Inode>
    var panicked: bool
    ghost var addr: Addrs
    ghost var owner: map<nat, Place>
    ghost var logged: set<nat>    // blocks handed to log_write since the operation began

    ghost predicate Valid()
      reads this
    {
      Ok(sb, blocks, inodes, addr, owner)
    }

    /** Between operations: structure intact, boot block zero, every block below a file's end mapped
        and none wholly beyond it. */
    ghost predicate Sound()
      reads this
    {
      Valid() && BootZero(blocks) && Dense(inodes, addr) && Snug(inodes, addr) && !panicked
    }

    ghost function Now(): View
      reads this
    {
      View(blocks, inodes, addr, owner, logged)
    }

    /** A formatted disk with empty files. */
    constructor (sb: Super, inodestart: nat, ninodes: nat)
      requires GoodSuper(sb, sb.size)
      ensures this.sb == sb && this.inodestart == inodestart && Sound()
      ensures |inodes| == ninodes && (forall i :: 0 <= i < ninodes ==> inodes[i] == EmptyInode()) && owner == map[]
      ensures forall b: nat :: b in FreeSet(sb, blocks) <==> sb.nmeta <= b < sb.size
    {
      var disk := Format(sb);
      this.sb, this.inodestart := sb, inodestart;
      blocks, inodes := disk, seq(ninodes, _ => EmptyInode());
      panicked, logged, owner := false, {}, map[];
      addr := imap pl: Place | pl.ino < ninodes && GoodSlot(pl.slot) :: 0;
      new;
      EmptyRefines(blocks, inodes, addr);
      ZeroWords();
      assert forall pl :: SnugAt(inodes, addr, pl);
    }

    /** Scan for the lowest clear bit; set it and zero its block. */
    method Balloc() returns (r: nat)
      requires GoodSuper(sb, |blocks|) && MetaMarked(sb, blocks)
      modifies this`blocks, this`logged
      ensures FreeSet(sb, old(blocks)) == {} ==> r == 0 && blocks == old(blocks) && logged == old(logged)
      ensures FreeSet(sb, old(blocks)) != {} ==>
                && r in FreeSet(sb, old(blocks)) && r != 0
                && (forall c: nat :: c in FreeSet(sb, old(blocks)) ==> r <= c)
                && blocks == Allocated(sb, old(blocks), r)
                && FreeSet(sb, blocks) == FreeSet(sb, old(blocks)) - {r}
                && |FreeSet(sb, blocks)| == |FreeSet(sb, old(blocks))| - 1
                && logged == old(logged) + {BitBlock(sb.bmapstart, r), r}
    {
      var b := 0;
      while b < sb.size
        invariant b % BPB == 0 && blocks == old(blocks) && logged == old(logged)
        invariant forall c: nat :: c < b && c < sb.size ==> Marked(blocks, sb.bmapstart, c)
      {
        var bi := Scan(b);
        if bi < BPB && b + bi < sb.size {
          r := b + bi;
          AllocatedFree(sb, blocks, r);
          blocks := Allocated(sb, blocks, r);
          logged := logged + {BitBlock(sb.bmapstart, r), r};
          return;
        }
        b := b + BPB;
      }
      r := 0;
    }

    /** The scan of the bitmap block of b for a clear bit. */
    method Scan(b: nat) returns (bi: nat)
      requires GoodSuper(sb, |blocks|) && b % BPB == 0 && b < sb.size
      ensures bi <= BPB && (bi < BPB && b + bi < sb.size ==> !Marked(blocks, sb.bmapstart, b + bi))
      ensures forall c: nat :: b <= c < b + bi && c < sb.size ==> Marked(blocks, sb.bmapstart, c)
      ensures bi < BPB ==> b + bi <= sb.size
    {
      BitBlockBelow(sb, |blocks|, b);
      var bp := blocks[sb.bmapstart + b / BPB];
      bi := 0;
      while bi < BPB && b + bi < sb.size
        invariant 0 <= bi <= BPB && b + bi <= sb.size
        invariant forall c: nat :: b <= c < b + bi ==> Marked(blocks, sb.bmapstart, c)
      {
        ScanPosition(b, bi);
        if !Bit(bp[bi / 8], bi % 8) {
          assert !Marked(blocks, sb.bmapstart, b + bi);
          return;
        }
        assert Marked(blocks, sb.bmapstart, b + bi);
        bi := bi + 1;
      }
    }

    /** Clear block b's bit; a clear bit is a panic. */
    method Bfree(b: nat)
      requires GoodSuper(sb, |blocks|) && b < sb.size && !panicked
      modifies this`blocks, this`panicked, this`logged
      ensures panicked <==> !Marked(old(blocks), sb.bmapstart, b)
      ensures |blocks| == |old(blocks)| && forall c :: sb.nmeta <= c < |blocks| ==> blocks[c] == old(blocks)[c]
      ensures !panicked ==> forall c: nat {:trigger Marked(blocks, sb.bmapstart, c)} ::
                (Marked(blocks, sb.bmapstart, c) <==> c != b && Marked(old(blocks), sb.bmapstart, c))
      ensures blocks[0] == old(blocks)[0]
      ensures logged == if panicked then old(logged) else old(logged) + {BitBlock(sb.bmapstart, b)}
    {
      BitBlockBelow(sb, |blocks|, b);
      var bp := blocks[sb.bmapstart + b / BPB];
      var bi := b % BPB;
      ScanPosition(b - bi, bi);
      if !Bit(bp[bi / 8], bi % 8) {
        panicked := true;
        return;
      }
      forall c: nat
        ensures Marked(Unmark(blocks, sb.bmapstart, b), sb.bmapstart, c) <==> c != b && Marked(blocks, sb.bmapstart, c)
      {
        UnmarkAt(blocks, sb.bmapstart, b, c);
      }
      blocks := Unmark(blocks, sb.bmapstart, b);
      logged := logged + {BitBlock(sb.bmapstart, b)};
    }

    /** An address kept in the inode, allocated when it is 0. */
    method TopBlock(ino: nat, s: Slot) returns (r: nat)
      requires Valid() && ino < |inodes| && IsTop(s) && GoodSlot(s)
      modifies this`blocks, this`inodes, this`addr, this`owner, this`logged
      ensures Valid() && SameFrame(old(Now()), Now())
      ensures Obtained(sb, old(Now()), Now(), Place(ino, s), r)
      ensures Stepped(sb, old(Now()), Now(), ino, {s})
    {
      ghost var pl := Place(ino, s);
      TopIs(blocks, inodes, addr, pl);
      r := inodes[ino].addrs[TopIndex(s)];
      if r == 0 {
        r := Balloc();
        if r != 0 {
          inodes := inodes[ino := WithTop(inodes[ino], TopIndex(s), r)];
          addr := addr[pl := r];
          owner := owner[r := pl];
          TopStep(sb, old(Now()), Now(), pl, r);
          return;
        }
      }
      StayedPut(sb, Now(), ino, {s});
    }

    /** An entry of the present index block p, allocated when it is 0. */
    method Entry(ghost ino: nat, ghost s: Slot, p: nat, w: nat) returns (r: nat)
      requires Valid() && ino < |inodes| && !IsTop(s) && GoodSlot(s) && w == WordIn(s)
      requires p != 0 && Place(ino, Parent(s)) in addr && p == addr[Place(ino, Parent(s))]
      modifies this`blocks, this`addr, this`owner, this`logged
      ensures Valid() && SameFrame(old(Now()), Now())
      ensures Obtained(sb, old(Now()), Now(), Place(ino, s), r)
      ensures Stepped(sb, old(Now()), Now(), ino, {s, Parent(s)})
    {
      ghost var pl := Place(ino, s);
      EntryIs(blocks, inodes, addr, pl);
      assert p in owner && owner[p] == Place(ino, Parent(s));
      r := GetWord(blocks[p], w);
      if r == 0 {
        r := Balloc();
        if r != 0 {
          blocks := Entered(blocks, p, w, r);
          logged := logged + {p};
          addr := addr[pl := r];
          owner := owner[r := pl];
          EntryStep(sb, old(Now()), Now(), pl, p, r);
          return;
        }
      }
      StayedPut(sb, Now(), ino, {s, Parent(s)});
    }

    /** The block holding file block bn, allocating what is missing on the way. */
    method Bmap(ino: nat, bn: nat) returns (r: nat)
      requires Valid() && ino < |inodes| && !panicked
      modifies this`blocks, this`inodes, this`addr, this`owner, this`logged, this`panicked
      ensures Valid()
      ensures panicked <==> bn >= MAXFILE
      ensures bn < MAXFILE ==> Mapped(sb, old(Now()), Now(), ino, SlotOf(bn), r)
      ensures bn < MAXFILE ==> Stepped(sb, old(Now()), Now(), ino, Path(SlotOf(bn)))
    {
      if bn >= MAXFILE {
        panicked := true;
        return 0;
      }
      ghost var s := SlotOf(bn);
      if bn < NDIRECT {
        assert s == Direct(bn);
        r := MapDirect(ino, bn, s);
      } else if bn < NDIRECT + NINDIRECT {
        assert s == IndLeaf(bn - NDIRECT);
        r := MapSingle(ino, bn - NDIRECT, s);
      } else {
        var n := bn - NDIRECT - NINDIRECT;
        var j, k := n / NINDIRECT, n % NINDIRECT;
        assert s == DblLeaf(j, k);
        r := MapDouble(ino, j, k, s);
      }
    }

    method MapDirect(ino: nat, i: nat, ghost s: Slot) returns (r: nat)
      requires Valid() && ino < |inodes| && i < NDIRECT && s == Direct(i)
      modifies this`blocks, this`inodes, this`addr, this`owner, this`logged
      ensures Valid()
      ensures Mapped(sb, old(Now()), Now(), ino, s, r)
      ensures Stepped(sb, old(Now()), Now(), ino, Path(s))
    {
      r := TopBlock(ino, Direct(i));
      DirectMapped(sb, old(Now()), Now(), ino, s, r);
    }

    method MapSingle(ino: nat, j: nat, ghost s: Slot) returns (r: nat)
      requires Valid() && ino < |inodes| && j < NINDIRECT && s == IndLeaf(j)
      modifies this`blocks, this`inodes, this`addr, this`owner, this`logged
      ensures Valid()
      ensures Mapped(sb, old(Now()), Now(), ino, s, r)
      ensures Stepped(sb, old(Now()), Now(), ino, Path(s))
    {
      ghost var u := Now();
      EntryIs(blocks, inodes, addr, Place(ino, IndLeaf(j)));
      var p := TopBlock(ino, Ind);
      ghost var v := Now();
      if p == 0 {
        SteppedWider(sb, u, v, ino, {Ind}, Path(IndLeaf(j)));
        SingleMapped(sb, u, v, v, ino, IndLeaf(j), p, 0);
        return 0;
      }
      r := Entry(ino, IndLeaf(j), p, j);
      SteppedTwice(sb, u, v, Now(), ino, {Ind}, {IndLeaf(j), Parent(IndLeaf(j))}, Path(IndLeaf(j)));
      SingleMapped(sb, u, v, Now(), ino, IndLeaf(j), p, r);
    }

    method MapMid(ino: nat, j: nat) returns (p: nat, q: nat)
      requires Valid() && ino < |inodes| && j < NINDIRECT
      modifies this`blocks, this`inodes, this`addr, this`owner, this`logged
      ensures Valid() && SameFrame(old(Now()), Now())
      ensures MidMapped(sb, old(Now()), Now(), ino, j, p, q)
      ensures Stepped(sb, old(Now()), Now(), ino, {Dbl, DblMid(j)})
    {
      ghost var u := Now();
      EntryIs(blocks, inodes, addr, Place(ino, DblMid(j)));
      p := TopBlock(ino, Dbl);
      ghost var v := Now();
      if p == 0 {
        SteppedWider(sb, u, v, ino, {Dbl}, {Dbl, DblMid(j)});
        q := 0;
      } else {
        q := Entry(ino, DblMid(j), p, j);
        SteppedTwice(sb, u, v, Now(), ino, {Dbl}, {DblMid(j), Parent(DblMid(j))}, {Dbl, DblMid(j)});
      }
      MidMappedBy(sb, u, v, Now(), ino, j, p, q);
    }

    method MapDouble(ino: nat, j: nat, k: nat, ghost s: Slot) returns (r: nat)
      requires Valid() && ino < |inodes| && j < NINDIRECT && k < NINDIRECT && s == DblLeaf(j, k)
      modifies this`blocks, this`inodes, this`addr, this`owner, this`logged
      ensures Valid()
      ensures Mapped(sb, old(Now()), Now(), ino, s, r)
      ensures Stepped(sb, old(Now()), Now(), ino, Path(s))
    {
      ghost var u, all := Now(), Path(DblLeaf(j, k));
      EntryIs(blocks, inodes, addr, Place(ino, DblLeaf(j, k)));
      var p, q := MapMid(ino, j);
      ghost var v := Now();
      SteppedWider(sb, u, v, ino, {Dbl, DblMid(j)}, all);
      if p == 0 {
        r := 0;
      } else if q == 0 {
        // bmap has no test here: it goes on with block 0
        r := GetWord(blocks[0], k);
        if r == 0 {
          r := Balloc();
        }
      } else {
        r := Entry(ino, DblLeaf(j, k), q, k);
        SteppedTwice(sb, u, v, Now(), ino, {Dbl, DblMid(j)}, {DblLeaf(j, k), Parent(DblLeaf(j, k))}, all);
      }
      DoubleMapped(sb, u, v, Now(), ino, DblLeaf(j, k), p, q, r);
    }

    // ------------------------------------------------------------ itrunc

    /** Release the block of one present slot, in visiting order; v is the state itrunc began in. */
    method FreeSlot(b: nat, ghost pl: Place, ghost v: View, ghost lost: bool)
      requires GoodView(sb, v) && !panicked && pl in v.addr && b == v.addr[pl] != 0
      requires Trimmed(sb, v, blocks, logged, pl.ino, Rank(pl.slot), lost)
      modifies this`blocks, this`panicked, this`logged
      ensures !panicked && Trimmed(sb, v, blocks, logged, pl.ino, Rank(pl.slot) + 1, lost)
    {
      TrimmedAll(sb, v, blocks, logged, pl.ino, Rank(pl.slot), lost);
      StillMarked(sb, v.blocks, blocks, v.addr, v.owner, pl, lost);
      ghost var before := blocks;
      Bfree(b);
      ReleaseOne(sb, v.blocks, before, blocks, v.inodes, v.addr, v.owner, pl, lost);
      RecordOne(sb, v.logged, old(logged), v.blocks, v.inodes, v.addr, v.owner, pl, lost);
    }

    /** Release the block of one slot unless it has none. */
    method FreePresent(b: nat, ghost pl: Place, ghost v: View, ghost lost: bool)
      requires GoodView(sb, v) && !panicked && pl in v.addr && b == v.addr[pl]
      requires Trimmed(sb, v, blocks, logged, pl.ino, Rank(pl.slot), lost)
      modifies this`blocks, this`panicked, this`logged
      ensures !panicked && Trimmed(sb, v, blocks, logged, pl.ino, Rank(pl.slot) + 1, lost)
    {
      if b != 0 {
        FreeSlot(b, pl, v, lost);
      } else {
        OneAbsent(v.inodes, v.blocks, v.addr, pl);
        TrimSkip(sb, v, blocks, logged, pl.ino, Rank(pl.slot), Rank(pl.slot) + 1, lost);
      }
    }

    method TruncDirect(ino: nat, ghost v: View)
      requires GoodView(sb, v) && !panicked && ino < |inodes| && inodes == v.inodes
      requires Trimmed(sb, v, blocks, logged, ino, 0, false)
      modifies this`blocks, this`inodes, this`panicked, this`logged
      ensures !panicked && Trimmed(sb, v, blocks, logged, ino, NDIRECT, false)
      ensures ClearedTo(v.inodes, inodes, ino, NDIRECT)
    {
      var i := 0;
      while i < NDIRECT
        invariant i <= NDIRECT && !panicked && ClearedTo(v.inodes, inodes, ino, i)
        invariant Trimmed(sb, v, blocks, logged, ino, i, false)
      {
        ghost var pl := Place(ino, Direct(i));
        TopIs(v.blocks, v.inodes, v.addr, pl);
        if inodes[ino].addrs[i] != 0 {
          FreeSlot(inodes[ino].addrs[i], pl, v, false);
          inodes := inodes[ino := WithTop(inodes[ino], i, 0)];
        } else {
          OneAbsent(v.inodes, v.blocks, v.addr, pl);
          TrimSkip(sb, v, blocks, logged, ino, i, i + 1, false);
        }
        i := i + 1;
      }
    }

    /** Release the present entries of index block p; an absent index block is read as block 0. */
    method FreeEntries(p: nat, ghost par: Place, ghost v: View, ghost first: nat, ghost lost: bool)
      requires GoodView(sb, v) && !panicked && par in v.addr && IsLeafIndex(par.slot)
      requires p == v.addr[par] && (p == 0 ==> BootZero(v.blocks)) && first == Rank(LeafOf(par.slot, 0))
      requires Trimmed(sb, v, blocks, logged, par.ino, first, lost)
      modifies this`blocks, this`panicked, this`logged
      ensures !panicked && Trimmed(sb, v, blocks, logged, par.ino, first + NINDIRECT, lost)
    {
      TrimKeeps(sb, v, blocks, logged, par.ino, first, lost, par);
      var a := blocks[p];
      var j := 0;
      while j < NINDIRECT
        invariant j <= NINDIRECT && !panicked
        invariant Trimmed(sb, v, blocks, logged, par.ino, first + j, lost)
      {
        ghost var pl := Place(par.ino, LeafOf(par.slot, j));
        EntryIs(v.blocks, v.inodes, v.addr, pl);
        FreePresent(GetWord(a, j), pl, v, lost);
        j := j + 1;
      }
    }

    method TruncSingle(ino: nat, ghost v: View)
      requires GoodView(sb, v) && !panicked && ClearedTo(v.inodes, inodes, ino, NDIRECT)
      requires Trimmed(sb, v, blocks, logged, ino, NDIRECT, false)
      modifies this`blocks, this`inodes, this`panicked, this`logged
      ensures !panicked && Trimmed(sb, v, blocks, logged, ino, SINGLE_END, false)
      ensures ClearedTo(v.inodes, inodes, ino, NDIRECT + 1)
    {
      ghost var par := Place(ino, Ind);
      TopIs(v.blocks, v.inodes, v.addr, par);
      var p := inodes[ino].addrs[NDIRECT];
      if p != 0 {
        FreeEntries(p, par, v, NDIRECT, false);
        FreeSlot(p, par, v, false);
        inodes := inodes[ino := WithTop(inodes[ino], NDIRECT, 0)];
      } else {
        NoSingle(v.blocks, v.inodes, v.addr, ino);
        TrimSkip(sb, v, blocks, logged, ino, NDIRECT, SINGLE_END, false);
      }
    }

    /** Entry j of the double-indirect block: its entries, then itself, with no test whether it is absent. */
    method FreeMid(q: nat, ghost ino: nat, ghost j: nat, ghost v: View, ghost lost: bool) returns (ghost lost': bool)
      requires
        && GoodView(sb, v) && !panicked && Place(ino, DblMid(j)) in v.addr && q == v.addr[Place(ino, DblMid(j))]
        && BootZero(v.blocks)
      requires AtMostOne(v.addr, ino, j, lost) && Trimmed(sb, v, blocks, logged, ino, Rank(DblLeaf(j, 0)), lost)
      modifies this`blocks, this`panicked, this`logged
      ensures panicked <==> AbsentMids(v.addr, ino, j + 1) >= 2
      ensures !panicked ==>
        AtMostOne(v.addr, ino, j + 1, lost') && Trimmed(sb, v, blocks, logged, ino, Rank(DblLeaf(j + 1, 0)), lost')
    {
      ghost var par, first, mid := Place(ino, DblMid(j)), Rank(DblLeaf(j, 0)), Rank(DblMid(j));
      assert first + NINDIRECT == mid && mid + 1 == Rank(DblLeaf(j + 1, 0));
      assert AbsentMids(v.addr, ino, j + 1) == AbsentMids(v.addr, ino, j) + if q == 0 then 1 else 0;
      FreeEntries(q, par, v, first, lost);
      lost' := lost || q == 0;
      if q != 0 {
        FreeSlot(q, par, v, lost);
      } else {
        OneAbsent(v.inodes, v.blocks, v.addr, par);
        TrimSkip(sb, v, blocks, logged, ino, mid, mid + 1, lost);
        FreeZero(ino, v, mid + 1, lost);
      }
    }

    /** bfree of the 0 that an absent entry reads as: block 0's bit goes, and the second time there is none. */
    method FreeZero(ghost ino: nat, ghost v: View, ghost rank: nat, ghost lost: bool)
      requires GoodView(sb, v) && !panicked && Trimmed(sb, v, blocks, logged, ino, rank, lost)
      modifies this`blocks, this`panicked, this`logged
      ensures panicked <==> lost
      ensures !panicked ==> Trimmed(sb, v, blocks, logged, ino, rank, true)
    {
      TrimmedAll(sb, v, blocks, logged, ino, rank, lost);
      ghost var before := blocks;
      assert Marked(v.blocks, sb.bmapstart, 0) && 0 !in v.owner;
      Bfree(0);
      if !lost {
        ReleaseZero(sb, v.blocks, before, blocks, v.owner, ino, rank);
      }
    }

    /** The loop over the double-indirect block's entries. */
    method FreeMids(p: nat, ghost dbl: Place, ghost v: View) returns (ghost lost: bool)
      requires
        && GoodView(sb, v) && !panicked && dbl in v.addr && dbl.slot == Dbl && p == v.addr[dbl] != 0
        && BootZero(v.blocks)
      requires Trimmed(sb, v, blocks, logged, dbl.ino, SINGLE_END, false)
      modifies this`blocks, this`panicked, this`logged
      ensures panicked <==> AbsentMids(v.addr, dbl.ino, NINDIRECT) >= 2
      ensures !panicked ==>
        AtMostOne(v.addr, dbl.ino, NINDIRECT, lost) && Trimmed(sb, v, blocks, logged, dbl.ino, Rank(Dbl), lost)
    {
      TrimKeeps(sb, v, blocks, logged, dbl.ino, SINGLE_END, false, dbl);
      var a := blocks[p];
      var j := 0;
      lost := false;
      while j < NINDIRECT
        invariant j <= NINDIRECT && !panicked
        invariant AtMostOne(v.addr, dbl.ino, j, lost)
        invariant Trimmed(sb, v, blocks, logged, dbl.ino, Rank(DblLeaf(j, 0)), lost)
      {
        EntryIs(v.blocks, v.inodes, v.addr, Place(dbl.ino, DblMid(j)));
        AbsentMidsUp(v.addr, dbl.ino, j + 1, NINDIRECT);
        lost := FreeMid(GetWord(a, j), dbl.ino, j, v, lost);
        if panicked {
          return;
        }
        j := j + 1;
      }
    }

    method TruncDouble(ino: nat, ghost v: View) returns (ghost lost: bool)
      requires GoodView(sb, v) && !panicked && ClearedTo(v.inodes, inodes, ino, NDIRECT + 1) && BootZero(v.blocks)
      requires Trimmed(sb, v, blocks, logged, ino, SINGLE_END, false) && Place(ino, Dbl) in v.addr
      modifies this`blocks, this`inodes, this`panicked, this`logged
      ensures panicked <==> v.addr[Place(ino, Dbl)] != 0 && AbsentMids(v.addr, ino, NINDIRECT) >= 2
      ensures !panicked ==> (lost <==> v.addr[Place(ino, Dbl)] != 0 && AbsentMids(v.addr, ino, NINDIRECT) == 1)
      ensures !panicked ==> Trimmed(sb, v, blocks, logged, ino, LAST, lost)
      ensures !panicked ==> ClearedTo(v.inodes, inodes, ino, NDIRECT + 2)
    {
      ghost var dbl := Place(ino, Dbl);
      lost := false;
      TopIs(v.blocks, v.inodes, v.addr, dbl);
      var p := inodes[ino].addrs[NDIRECT + 1];
      if p == 0 {
        NoDouble(v.blocks, v.inodes, v.addr, ino);
        TrimSkip(sb, v, blocks, logged, ino, SINGLE_END, LAST, false);
        return;
      }
      lost := FreeMids(p, dbl, v);
      if panicked {
        return;
      }
      FreeSlot(p, dbl, v, lost);
      inodes := inodes[ino := WithTop(inodes[ino], NDIRECT + 1, 0)];
    }

    /** Release everything the inode's tree holds. */
    method TruncTree(ino: nat, ghost v: View) returns (ghost lost: bool)
      requires GoodView(sb, v) && v == Now() && !panicked && ino < |inodes| && BootZero(blocks)
      modifies this`blocks, this`inodes, this`panicked, this`logged
      ensures Place(ino, Dbl) in v.addr
      ensures panicked <==> v.addr[Place(ino, Dbl)] != 0 && AbsentMids(v.addr, ino, NINDIRECT) >= 2
      ensures !panicked ==> (lost <==> v.addr[Place(ino, Dbl)] != 0 && AbsentMids(v.addr, ino, NINDIRECT) == 1)
      ensures !panicked ==> Trimmed(sb, v, blocks, logged, ino, LAST, lost)
      ensures !panicked ==> ClearedTo(v.inodes, inodes, ino, NDIRECT + 2)
    {
      assert Place(ino, Dbl) in v.addr;
      TruncDirect(ino, v);
      TruncSingle(ino, v);
      lost := TruncDouble(ino, v);
    }

    /** Discard an inode's contents. */
    method Itrunc(ino: nat) returns (ghost lost: bool)
      requires Sound() && ino < |inodes|
      modifies this`blocks, this`inodes, this`addr, this`owner, this`panicked, this`logged
      ensures Place(ino, Dbl) in old(addr)
      ensures panicked <==> old(addr)[Place(ino, Dbl)] != 0 && AbsentMids(old(addr), ino, NINDIRECT) >= 2
      ensures !panicked ==> (lost <==> old(addr)[Place(ino, Dbl)] != 0 && AbsentMids(old(addr), ino, NINDIRECT) == 1)
      ensures !panicked ==>
        FreeSet(sb, blocks) == FreeSet(sb, old(blocks)) + Held(old(owner), ino) + (if lost then {0} else {})
      ensures !panicked ==> inodes == old(inodes)[ino := EmptyInode()]
      ensures !panicked ==>
        Refines(blocks, inodes, addr) && addr == Emptied(old(addr), ino) && owner == Disowned(old(owner), ino)
      ensures !panicked ==> forall pl: Place {:trigger DataAt(blocks, addr, pl)} ::
                pl.ino != ino ==> DataAt(blocks, addr, pl) == DataAt(old(blocks), old(addr), pl)
      ensures !panicked && !lost ==> Sound()
      ensures !panicked ==> logged == old(logged) + HeldBits(sb, old(owner), ino) + {inodestart + ino / IPB} +
                                      if lost then {BitBlock(sb.bmapstart, 0)} else {}
      ensures SINGLES * BSIZE < old(inodes)[ino].size < (SINGLES + (NINDIRECT - 2) * NINDIRECT) * BSIZE ==> panicked
      ensures old(inodes)[ino].size < SINGLES * BSIZE ==> !panicked && !lost
      ensures old(inodes)[ino].size > (SINGLES + (NINDIRECT - 2) * NINDIRECT) * BSIZE ==> !panicked
    {
      ghost var v := Now();
      TruncBySize(sb, v, ino);
      lost := TruncTree(ino, v);
      if panicked {
        return;
      }
      EndTrunc(sb, v, blocks, inodes, logged, ino, lost);
      inodes := inodes[ino := inodes[ino].(size := 0)];
      addr := Emptied(addr, ino);
      owner := Disowned(owner, ino);
      logged := logged + {inodestart + ino / IPB};
    }

    // ---------------------------------------------------- readi and writei

    /** One round of writei's loop: map the block of offset o and copy the chunk in; `whole` says
        that the source could be read to the end, without which the block is not logged. */
    method WriteBlock(ino: nat, o: nat, chunk: seq<Byte>, whole: bool) returns (ok: bool)
      requires Valid() && ino < |inodes| && !panicked && BootZero(blocks) && o < MAXSIZE && o % BSIZE + |chunk| <= BSIZE
      modifies this`blocks, this`inodes, this`addr, this`owner, this`logged, this`panicked
      ensures Valid() && !panicked
      ensures ok ==>
        Wrote(sb, old(Now()), Now(), ino, o, chunk, Path(SlotOf(o / BSIZE)), if whole then {SlotOf(o / BSIZE)} else {})
      ensures !ok ==> Wrote(sb, old(Now()), Now(), ino, o, [], Path(SlotOf(o / BSIZE)), {})
      ensures Home(ino, o / BSIZE) in addr && (ok <==> addr[Home(ino, o / BSIZE)] != 0)
      ensures !ok ==> FreeSet(sb, blocks) == {}
    {
      ghost var pl := Home(ino, o / BSIZE);
      var b := Bmap(ino, o / BSIZE);
      ghost var v := Now();
      SteppedWrote(sb, old(Now()), v, ino, o, Path(pl.slot));
      if b == 0 {
        return false;
      }
      assert owner[b] == pl;
      blocks := Stored(blocks, b, o % BSIZE, chunk);
      if whole {
        logged := logged + {b};
      }
      ChunkWrote(sb, old(Now()), v, Now(), ino, o, chunk, b, whole);
      ok := true;
    }

    /** A round of writei's loop, with what the rounds before it did; `go` unless the loop breaks. */
    method WriteRound(ino: nat, src: seq<Byte>, ghost off: nat, o: nat, n: nat, tot: nat, m: nat, ghost u: View)
      returns (go: bool, ghost why: Stop)
      requires Valid() && ino < |inodes| && !panicked && BootZero(blocks)
      requires o == off + tot && off + n <= MAXSIZE && tot < n && tot <= |src| && m == ChunkLen(o, n - tot)
      requires Progress(sb, u, Now(), ino, src, off, tot)
      modifies this`blocks, this`inodes, this`addr, this`owner, this`logged, this`panicked
      ensures Valid() && !panicked
      ensures go ==> tot + m <= |src| && Progress(sb, u, Now(), ino, src, off, tot + m)
      ensures !go ==> Ended(sb, u, Now(), ino, src, off, n, tot, why)
    {
      var q := Min(m, |src| - tot);
      ghost var v := Now();
      var chunk := src[tot..tot + q];
      var ok := WriteBlock(ino, o, chunk, q == m);
      if !ok {
        RoundShort(sb, u, v, Now(), ino, src, off, tot, n, [], NoSpace, o);
        return false, NoSpace;
      }
      go, why := q == m, Fault;
      if go {
        RoundFull(sb, u, v, Now(), ino, src, off, tot, m, chunk, o);
      } else {
        RoundShort(sb, u, v, Now(), ino, src, off, tot, n, chunk, why, o);
      }
    }

    /** writei's loop. */
    method WriteLoop(ino: nat, src: seq<Byte>, off: nat, n: nat) returns (tot: nat, ghost why: Stop)
      requires
        && Valid() && ino < |inodes| && !panicked && BootZero(blocks) && off + n <= MAXSIZE && DenseTo(addr, ino, off)
      modifies this`blocks, this`inodes, this`addr, this`owner, this`logged, this`panicked
      ensures Valid() && !panicked && Ended(sb, old(Now()), Now(), ino, src, off, n, tot, why)
    {
      ghost var u := Now();
      var o := off;
      tot := 0;
      ProgressFirst(sb, u, ino, src, off);
      while tot < n
        invariant Valid() && !panicked && tot <= n && o == off + tot && Progress(sb, u, Now(), ino, src, off, tot)
      {
        ProgressAll(sb, u, Now(), ino, src, off, tot);
        var m := ChunkLen(o, n - tot);
        var go;
        go, why := WriteRound(ino, src, off, o, n, tot, m, u);
        if !go {
          return;
        }
        tot, o := tot + m, o + m;
      }
      why := Done;
      EndedWhole(sb, u, Now(), ino, src, off, n);
    }

    /** Write n bytes at off; `src` is the readable start of the source. */
    method Writei(ino: nat, src: seq<Byte>, off: nat, n: nat) returns (r: int, ghost why: Stop)
      requires Sound() && ino < |inodes| && off < WORD_LIMIT && n < WORD_LIMIT
      modifies this`blocks, this`inodes, this`addr, this`owner, this`logged, this`panicked
      ensures Sound() && |inodes| == old(|inodes|) && -1 <= r <= n && r <= |src|
      ensures r == -1 <==> off > old(inodes)[ino].size || off + n > MAXSIZE
      ensures r == -1 ==> Now() == old(Now())
      ensures r != -1 ==> Outcome(sb, inodestart + ino / IPB, old(Now()), Now(), ino, src, off, n, r, why)
      ensures r != -1 ==> (r == n <==> Enough(sb, old(Now()), ino, src, off, n))
      ensures n <= 3 * BSIZE && old(logged) == {} ==> |logged| <= 8 + Spans(sb)
    {
      why := Done;
      var size := inodes[ino].size;
      if off > size || (off + n) % WORD_LIMIT < off {
        return -1, why;
      }
      if off + n > MAXSIZE {
        return -1, why;
      }
      ghost var u := Now();
      r, why := WriteLoop(ino, src, off, n);
      ghost var v := Now();
      EndedAll(sb, u, v, ino, src, off, n, r, why);
      if off + r > size {
        inodes := inodes[ino := inodes[ino].(size := off + r)];
      }
      logged := logged + {inodestart + ino / IPB};
      WriteDone(sb, inodestart + ino / IPB, u, v, Now(), ino, src, off, n, r, why);
    }

    /** Bmap of a block below the end of a file: nothing is allocated. */
    method MapPresent(ino: nat, bn: nat) returns (b: nat)
      requires Sound() && ino < |inodes| && bn < MAXFILE && bn * BSIZE < inodes[ino].size
      modifies this`blocks, this`inodes, this`addr, this`owner, this`logged, this`panicked
      ensures Now() == old(Now()) && !panicked
      ensures Home(ino, bn) in addr && 0 != addr[Home(ino, bn)] == b < |blocks|
    {
      assert addr[Home(ino, bn)] != 0;
      b := Bmap(ino, bn);
      assert owner[b] == Home(ino, bn);
    }

    method ReadLoop(ino: nat, off: nat, want: nat, room: nat) returns (r: int, out: seq<Byte>)
      requires Sound() && ino < |inodes| && off + want <= inodes[ino].size
      modifies this`blocks, this`inodes, this`addr, this`owner, this`logged, this`panicked
      ensures Now() == old(Now()) && !panicked && off + want <= MAXSIZE
      ensures r == if want <= room then want else -1
      ensures r >= 0 ==> out == Slice(blocks, addr, ino, off, r)
    {
      ghost var u := Now();
      var tot, o := 0, off;
      out := [];
      while tot < want
        invariant Now() == u && !panicked && tot <= want && tot <= room && o == off + tot
        invariant out == Slice(u.blocks, u.addr, ino, off, tot)
      {
        var b := MapPresent(ino, o / BSIZE);
        if b == 0 {
          break;
        }
        var m := ChunkLen(o, want - tot);
        if tot + m > room {
          return -1, out;
        }
        var part := blocks[b][o % BSIZE..o % BSIZE + m];
        SliceChunk(u.blocks, u.addr, ino, off, o, m, b, out, part);
        out, tot, o := out + part, tot + m, o + m;
      }
      r := tot;
    }

    /** Read up to n bytes at off into a destination that can take `room` of them. */
    method Readi(ino: nat, off: nat, n: nat, room: nat) returns (r: int, out: seq<Byte>)
      requires Sound() && ino < |inodes| && off < WORD_LIMIT && n < WORD_LIMIT
      modifies this`blocks, this`inodes, this`addr, this`owner, this`logged, this`panicked
      ensures Sound() && Now() == old(Now())
      ensures r == if Readable(inodes[ino].size, off, n) <= room then Readable(inodes[ino].size, off, n) else -1
      ensures r > 0 ==> off + r <= MAXSIZE && out == Slice(blocks, addr, ino, off, r)
    {
      out := [];
      var size := inodes[ino].size;
      if off > size || (off + n) % WORD_LIMIT < off {
        return 0, out;
      }
      var want := if off + n > size then size - off else n;
      r, out := ReadLoop(ino, off, want, room);
    }

    /** One logged operation of filewrite: n1 bytes from src[i..], after the i bytes before it. */
    method WriteChunk(ino: nat, src: seq<Byte>, i: nat, end: nat, n1: nat, ghost u: View, ghost off: nat, ghost n: nat,
                      ghost ops: seq<Op>)
      returns (r: int, ghost laid: seq<Byte>, ghost op: Op)
      requires
        && Sound() && ino < |inodes| && end == off + i < WORD_LIMIT && i < n && n1 == Min(n - i, CHUNK)
        && GoodView(sb, u)
      requires i <= |src| && Going(sb, inodestart, u, Now(), ino, src, off, n, ops, i)
      modifies this`blocks, this`inodes, this`addr, this`owner, this`logged, this`panicked
      ensures Sound() && |inodes| == old(|inodes|) && -1 <= r <= n1 && op.w == Now()
      ensures r == n1 ==> i + r <= |src| && laid == src[..i + r] && end + r < WORD_LIMIT
      ensures r == n1 ==> Going(sb, inodestart, u, Now(), ino, src, off, n, ops + [op], i + r)
      ensures r != n1 ==> Halted(sb, inodestart, u, Now(), ino, src, off, n, ops + [op], i + Max0(r), laid)
    {
      ghost var before := Now();
      logged := {};
      ghost var v := Now();
      ghost var why;
      r, why := Writei(ino, src[i..], end, n1);
      op := Op(v, Now(), r, why);
      laid := ChunkStep(sb, inodestart, u, before, ino, src, off, n, ops, i, op, n1);
    }

    /** Write n bytes at the file offset, in chunks that each are one logged operation. */
    method Filewrite(ino: nat, off: nat, src: seq<Byte>, n: int)
      returns (ret: int, end: nat, ghost laid: seq<Byte>, ghost ops: seq<Op>)
      requires Sound() && ino < |inodes| && off < WORD_LIMIT && n < 0x8000_0000
      modifies this`blocks, this`inodes, this`addr, this`owner, this`logged, this`panicked
      ensures Sound() && (ret == -1 || ret == n >= 0)
      ensures ret == n >= 0 <==> n == 0 || Writable(sb, old(Now()), ino, src, off, n)
      ensures ret == n >= 0 ==> end == off + n && n <= |src| && laid == src[..n]
      ensures off <= end <= off + |src| && end - off <= Max0(n)
      ensures laid == src[..end - off] || (laid == src && |src| < n)
      ensures Overlaid(old(blocks), old(addr), blocks, addr, ino, off, laid)
      ensures Resized(old(inodes), inodes, ino, Grown(old(inodes)[ino].size, off, end - off))
      ensures OpsOk(sb, inodestart, old(Now()), ino, src, off, Max0(n), ops) && (ops != [] <==> n > 0)
      ensures ops != [] ==> Now() == ops[|ops| - 1].w
      ensures ret == n >= 0 ==>
        |ops| == (n + CHUNK - 1) / CHUNK && (n > 0 ==> ops[|ops| - 1].r == n - (|ops| - 1) * CHUNK)
    {
      ghost var u, want := Now(), Max0(n);
      var i;
      i, end, laid, ops := WriteChunks(ino, off, src, n, u);
      ret := if i == n then n else -1;
      if i == want {
        WriteEnded(sb, inodestart, u, Now(), ino, src, off, want, ops);
      } else {
        HaltedAll(sb, inodestart, u, Now(), ino, src, off, want, ops, end - off, laid);
      }
    }

    /** The loop of filewrite, up to the first chunk that is not written in full. */
    method WriteChunks(ino: nat, off: nat, src: seq<Byte>, n: int, ghost u: View)
      returns (i: nat, end: nat, ghost laid: seq<Byte>, ghost ops: seq<Op>)
      requires Sound() && u == Now() && ino < |inodes| && off < WORD_LIMIT && n < 0x8000_0000
      modifies this`blocks, this`inodes, this`addr, this`owner, this`logged, this`panicked
      ensures Sound() && i <= Max0(n)
      ensures i == Max0(n) ==> end == off + i && i <= |src| && laid == src[..i]
      ensures i == Max0(n) ==> Going(sb, inodestart, u, Now(), ino, src, off, Max0(n), ops, i)
      ensures i < Max0(n) ==>
        off <= end && Halted(sb, inodestart, u, Now(), ino, src, off, Max0(n), ops, end - off, laid)
    {
      var most := (MAXOPBLOCKS - 1 - 1 - 2) / 2 * BSIZE;
      ghost var want := Max0(n);
      i, end, laid, ops := 0, off, src[..0], [];
      GoingFirst(sb, inodestart, u, ino, src, off, want);
      while i < n
        invariant i <= want && Sound() && |inodes| == |u.inodes| && end == off + i < WORD_LIMIT && i <= |src|
        invariant laid == src[..i] && Going(sb, inodestart, u, Now(), ino, src, off, want, ops, i)
      {
        var n1 := Min(n - i, most);
        var r;
        ghost var op;
        r, laid, op := WriteChunk(ino, src, i, end, n1, u, off, want, ops);
        ops := ops + [op];
        if r > 0 {
          end := end + r;
        }
        if r != n1 {
          return;
        }
        i := i + r;
      }
    }
  }

  lemma NoneMarked(blocks: seq<Block>, start: nat)
    requires forall c :: 0 <= c < |blocks| ==> blocks[c] == Zeros()
    ensures forall c: nat :: !Marked(blocks, start, c)
  {
  }

  /** Empty inodes have empty trees. */
  lemma EmptyRefines(blocks: seq<Block>, inodes: seq<Inode>, addr: Addrs)
    requires forall i :: 0 <= i < |inodes| ==> inodes[i] == EmptyInode()
    requires forall pl :: pl in addr <==> GoodPlace(inodes, pl)
    requires forall pl :: pl in addr ==> addr[pl] == 0
    ensures Refines(blocks, inodes, addr)
  {
    forall pl | pl in addr
      ensures AddrAt(blocks, inodes, pl) == 0
    {
    }
  }

  lemma ScanPosition(b: nat, bi: nat)
    requires b % BPB == 0 && bi < BPB
    ensures (b + bi) / BPB == b / BPB && BitByte(b + bi) == bi / 8 && BitIndex(b + bi) == bi % 8
  {
  }
}
