/** The virtual memory code over the kernel's page allocator. The trees in memory
    refine a flat map from pages of address spaces to entries, and every allocatable
    page is free, a page-table page, a mapped user frame, or in someone else's hands. */
module Vm {
  import opened Common
  import opened Sv39

  /** A page of an address space, named by the root of its page table. */
  datatype Spot = Spot(root: nat, vpn: nat)

  /** The flat view: what every page of every address space is mapped to. */
  type Flat = imap<Spot, Option<Mapping>>

  ghost predicate Refines(mem: Mem, roots: set<nat>, flat: Flat) {
    && (forall u :: u in flat <==> u.root in roots && u.vpn < VPNS)
    && (forall u {:trigger Leaf(mem, u.root, u.vpn)} :: u in flat ==> flat[u] == Decode(Leaf(mem, u.root, u.vpn)))
  }

  ghost predicate NoDup(s: seq<nat>) {
    forall i, j :: 0 <= i < j < |s| ==> s[i] != s[j]
  }

  /** Page conservation: the four groups cover the allocatable pages and do not overlap. */
  ghost predicate Accounts(all: set<nat>, free: seq<nat>, seats: map<nat, Seat>, frames: map<nat, Spot>,
                           other: set<nat>) {
    && NoDup(free)
    && (forall p :: p in all <==> p in free || p in seats || p in frames || p in other)
    && (forall p :: p in free ==> p !in seats && p !in frames && p !in other)
    && (forall p :: p in seats ==> p !in frames && p !in other)
    && (forall p :: p in frames ==> p !in other)
  }

  /** A tracked frame is mapped at the one spot recorded for it. */
  ghost predicate FramesOk(flat: Flat, frames: map<nat, Spot>) {
    forall p :: p in frames ==> frames[p] in flat && flat[frames[p]].Some? && flat[frames[p]].value.page == p
  }

  /** Memory contents agree except on page q. */
  ghost predicate OnlyPage(mem: Mem, mem': Mem, q: nat) {
    mem'.Keys == mem.Keys && forall p :: p in mem && p != q ==> mem'[p] == mem[p]
  }

  ghost predicate Ok(mem: Mem, all: set<nat>, free: seq<nat>, roots: set<nat>, seats: map<nat, Seat>,
                     frames: map<nat, Spot>, other: set<nat>, flat: Flat) {
    && Trees(mem, roots, seats) && Refines(mem, roots, flat)
    && Accounts(all, free, seats, frames, other) && FramesOk(flat, frames)
    && forall p :: p in all ==> p in mem
  }

  // ------------------------------------------------- single changes keep Ok

  /** Contents of a page that is no table. */
  lemma ScratchOk(mem: Mem, mem': Mem, all: set<nat>, free: seq<nat>, roots: set<nat>, seats: map<nat, Seat>,
                  frames: map<nat, Spot>, other: set<nat>, flat: Flat, q: nat)
    requires
      && Ok(mem, all, free, roots, seats, frames, other, flat) && MemOk(mem') && OnlyPage(mem, mem', q) && q !in seats
    ensures Ok(mem', all, free, roots, seats, frames, other, flat)
  {
    ElsewhereTrees(mem, mem', roots, seats);
  }

  lemma AllocAccounts(all: set<nat>, free: seq<nat>, seats: map<nat, Seat>, frames: map<nat, Spot>, other: set<nat>)
    requires Accounts(all, free, seats, frames, other) && free != []
    ensures Accounts(all, free[1..], seats, frames, other + {free[0]})
    ensures free[0] in all && free[0] !in seats && free[0] !in frames && free[0] !in other
  {
    assert forall p :: p in free <==> p == free[0] || p in free[1..];
  }

  /** kalloc: the head of the free list passes into the caller's hands. */
  lemma AllocOk(mem: Mem, all: set<nat>, free: seq<nat>, roots: set<nat>, seats: map<nat, Seat>, frames: map<nat, Spot>,
                other: set<nat>, flat: Flat)
    requires Ok(mem, all, free, roots, seats, frames, other, flat) && free != []
    ensures Ok(mem, all, free[1..], roots, seats, frames, other + {free[0]}, flat)
    ensures free[0] in all && free[0] !in seats && free[0] !in frames && free[0] !in other
  {
    AllocAccounts(all, free, seats, frames, other);
  }

  /** kfree: a page in the caller's hands goes on the free list. */
  lemma FreeOk(mem: Mem, all: set<nat>, free: seq<nat>, roots: set<nat>, seats: map<nat, Seat>, frames: map<nat, Spot>,
               other: set<nat>, flat: Flat, p: nat)
    requires Ok(mem, all, free, roots, seats, frames, other, flat) && p in other
    ensures Ok(mem, all, [p] + free, roots, seats, frames, other - {p}, flat)
  {
  }

  /** A page in the caller's hands becomes a table under entry i of table p. */
  lemma HangOk(mem: Mem, all: set<nat>, free: seq<nat>, roots: set<nat>, seats: map<nat, Seat>, frames: map<nat, Spot>,
               other: set<nat>, flat: Flat, p: nat, i: nat, q: nat)
    requires Ok(mem, all, free, roots, seats, frames, other, flat) && q in other
    requires p in seats && !seats[p].node.Low? && i < ENTRIES && !IsValid(mem[p][i])
    ensures Ok(Hang(mem, p, i, q), all, free,
               roots, seats[q := Seat(seats[p].root, ChildNode(seats[p].node, i))], frames, other - {q}, flat)
  {
    HangTrees(mem, roots, seats, p, i, q);
  }

  /** A leaf store at page v of address space r, where no tracked frame is mapped. */
  lemma StoreOk(mem: Mem, all: set<nat>, free: seq<nat>, roots: set<nat>, seats: map<nat, Seat>, frames: map<nat, Spot>,
                other: set<nat>, flat: Flat, r: nat, v: nat, p: nat, x: nat)
    requires Ok(mem, all, free, roots, seats, frames, other, flat) && v < VPNS
    requires p in seats && seats[p] == Seat(r, Low(Px2(v), Px1(v)))
    requires forall f :: f in frames ==> frames[f] != Spot(r, v)
    ensures Px0(v) < |mem[p]|
    ensures Ok(Store(mem, p, Px0(v), x), all, free, roots, seats, frames, other, flat[Spot(r, v) := Decode(x)])
  {
    VpnIndices(v);
    TableSeat(mem, roots, seats, p);
    StoreTrees(mem, roots, seats, p, Px0(v), x);
    forall u | u in flat
      ensures Leaf(Store(mem, p, Px0(v), x), u.root, u.vpn) == if u == Spot(r, v) then x else Leaf(mem, u.root, u.vpn)
    {
      StoreLeaf(mem, roots, seats, p, Px0(v), x, u.root, u.vpn);
    }
  }

  /** A mapped page that is in the caller's hands becomes a tracked frame. */
  lemma AdoptOk(mem: Mem, all: set<nat>, free: seq<nat>, roots: set<nat>, seats: map<nat, Seat>, frames: map<nat, Spot>,
                other: set<nat>, flat: Flat, q: nat, u: Spot)
    requires Ok(mem, all, free, roots, seats, frames, other, flat) && q in other
    requires u in flat && flat[u].Some? && flat[u].value.page == q
    ensures Ok(mem, all, free, roots, seats, frames[q := u], other - {q}, flat)
  {
  }

  /** A tracked frame passes back into the caller's hands. */
  lemma DisownOk(mem: Mem, all: set<nat>, free: seq<nat>, roots: set<nat>, seats: map<nat, Seat>,
                 frames: map<nat, Spot>, other: set<nat>, flat: Flat, q: nat)
    requires Ok(mem, all, free, roots, seats, frames, other, flat) && q in frames
    ensures Ok(mem, all, free, roots, seats, frames - {q}, other + {q}, flat)
  {
  }

  /** What walk() reads at the end is the flat map's entry. */
  lemma LeafIsFlat(mem: Mem, all: set<nat>, free: seq<nat>, roots: set<nat>, seats: map<nat, Seat>,
                   frames: map<nat, Spot>, other: set<nat>, flat: Flat, r: nat, v: nat, m: nat)
    requires Ok(mem, all, free, roots, seats, frames, other, flat) && r in roots && v < VPNS
    requires m in seats && seats[m] == Seat(r, Low(Px2(v), Px1(v)))
    ensures m in mem && Px0(v) < |mem[m]| && Spot(r, v) in flat && Decode(mem[m][Px0(v)]) == flat[Spot(r, v)]
  {
    LeafTable(mem, roots, seats, r, v, m);
  }

  /** The position walk() has reached when `level` is still to be descended. */
  function Reached(v: nat, level: nat): Node {
    if level == 2 then Root else if level == 1 then Mid(Px2(v)) else Low(Px2(v), Px1(v))
  }

  function PxAt(v: nat, level: nat): nat {
    if level == 2 then Px2(v) else Px1(v)
  }

  /** A missing table on the way leaves page v without an entry. */
  lemma MissingLeaf(mem: Mem, all: set<nat>, free: seq<nat>, roots: set<nat>, seats: map<nat, Seat>,
                    frames: map<nat, Spot>, other: set<nat>, flat: Flat, r: nat, v: nat, level: nat, p: nat)
    requires Ok(mem, all, free, roots, seats, frames, other, flat) && 1 <= level <= 2 && v < VPNS
    requires p in seats && seats[p] == Seat(r, Reached(v, level)) && Follow(mem, p, PxAt(v, level)).None?
    ensures Spot(r, v) in flat && flat[Spot(r, v)].None?
  {
    VpnIndices(v);
    assert TableAt(mem, r, Reached(v, level)) == Some(p);
    assert Leaf(mem, r, v) == 0;
  }

  /** The flat view with an empty address space added. */
  ghost function WithSpace(flat: Flat, q: nat): Flat {
    imap u: Spot | u in flat || (u.root == q && u.vpn < VPNS) :: if u in flat then flat[u] else None
  }

  /** The flat view without one address space. */
  ghost function WithoutSpace(flat: Flat, r: nat): Flat {
    imap u: Spot | u in flat && u.root != r :: flat[u]
  }

  lemma NewSpaceOk(mem: Mem, all: set<nat>, free: seq<nat>, roots: set<nat>, seats: map<nat, Seat>,
                   frames: map<nat, Spot>, other: set<nat>, flat: Flat, q: nat)
    requires Ok(mem, all, free, roots, seats, frames, other, flat) && q in other && mem[q] == ZeroPage() && q !in roots
    ensures Ok(mem, all, free, roots + {q}, seats[q := Seat(q, Root)], frames, other - {q}, WithSpace(flat, q))
  {
    NewRootTrees(mem, roots, seats, q);
  }

  /** A page table with no tracked frames leaves the books; its pages are in the caller's hands. */
  lemma DetachOk(mem: Mem, all: set<nat>, free: seq<nat>, roots: set<nat>, seats: map<nat, Seat>,
                 frames: map<nat, Spot>, other: set<nat>, flat: Flat, r: nat)
    requires Ok(mem, all, free, roots, seats, frames, other, flat)
    requires forall p :: p in frames ==> frames[p].root != r
    ensures Ok(mem, all, free, roots - {r}, WithoutTree(seats, r), frames, other + TreeOf(seats, r).Keys,
               WithoutSpace(flat, r))
  {
    DropTrees(mem, roots, seats, r);
  }

  function Height(n: Node): nat {
    match n case Root => 2 case Mid(_) => 1 case Low(_, _) => 0
  }

  /** freewalk() at table p of a subtree `sub`, having dealt with its first i entries:
      the pages `gone` under those are freed, the other pages and entries untouched. */
  ghost predicate PrunedBy(mem: Mem, mem0: Mem, mem1: Mem, other: set<nat>, other0: set<nat>, sub: set<nat>,
                           gone: set<nat>, p: nat, i: nat) {
    && other == other0 - gone && p in other && p in mem && |mem[p]| == ENTRIES
    && p in mem0 && |mem0[p]| == ENTRIES && (forall k :: i <= k < ENTRIES ==> mem[p][k] == mem0[p][k])
    && (forall s :: s in sub && s != p && s !in gone ==> s in other && s in mem && s in mem0 && mem[s] == mem0[s])
    && mem.Keys == mem1.Keys && (forall s :: s in mem && s !in sub ==> mem[s] == mem1[s])
  }

  ghost predicate Pruned(mem: Mem, mem0: Mem, mem1: Mem, other: set<nat>, other0: set<nat>, tree: map<nat, Node>,
                         p: nat, i: nat)
    requires p in tree
  {
    PrunedBy(mem, mem0, mem1, other, other0, Subtree(tree, tree[p]), Branches(tree, tree[p], i), p, i)
  }

  lemma PrunedByNext(mem: Mem, mem2: Mem, mem0: Mem, mem1: Mem, other: set<nat>, other2: set<nat>, other0: set<nat>,
                     sub: set<nat>, gone: set<nat>, branch: set<nat>, p: nat, i: nat)
    requires PrunedBy(mem, mem0, mem1, other, other0, sub, gone, p, i) && i < ENTRIES
    requires p in sub && p !in branch && branch <= sub && other2 == other - branch && mem2.Keys == mem.Keys
    requires forall s :: s in mem && s !in branch ==> mem2[s] == mem[s]
    ensures
      && p in mem2 && i < |mem2[p]|
      && PrunedBy(Store(mem2, p, i, 0), mem0, mem1, other2, other0, sub, gone + branch, p, i + 1)
  {
  }

  /** The table under a valid entry is intact and may be walked. */
  lemma BranchReady(mem: Mem, mem0: Mem, mem1: Mem, other: set<nat>, other0: set<nat>, tree: map<nat, Node>, p: nat,
                    i: nat)
    requires Whole(mem0, tree) && p in tree && i < ENTRIES && Pruned(mem, mem0, mem1, other, other0, tree, p, i)
    requires IsValid(mem[p][i])
    ensures IsPointer(mem[p][i]) && !tree[p].Low?
    ensures var c := PtePage(mem[p][i]);
      c in tree && tree[c] == ChildNode(tree[p], i) && Height(tree[c]) < Height(tree[p])
    ensures forall s :: s in Subtree(tree, ChildNode(tree[p], i)) ==> s in other && s in mem && mem[s] == mem0[s]
  {
    assert mem[p][i] == mem0[p][i];
    BranchNext(tree, tree[p], i);
    BranchesAll(mem0, tree, p);
  }

  lemma PrunedBranch(mem: Mem, mem2: Mem, mem0: Mem, mem1: Mem, other: set<nat>, other2: set<nat>, other0: set<nat>,
                     tree: map<nat, Node>, p: nat, i: nat)
    requires
      && Whole(mem0, tree) && p in tree && i < ENTRIES && !tree[p].Low?
      && Pruned(mem, mem0, mem1, other, other0, tree, p, i)
    requires other2 == other - Subtree(tree, ChildNode(tree[p], i)) && mem2.Keys == mem.Keys
    requires forall s :: s in mem && s !in Subtree(tree, ChildNode(tree[p], i)) ==> mem2[s] == mem[s]
    ensures p in mem2 && i < |mem2[p]| && Pruned(Store(mem2, p, i, 0), mem0, mem1, other2, other0, tree, p, i + 1)
  {
    var n, c := tree[p], ChildNode(tree[p], i);
    BranchNext(tree, n, i);
    BranchInside(tree, n, i);
    PrunedByNext(mem, mem2, mem0, mem1, other, other2, other0, Subtree(tree, n), Branches(tree, n, i), Subtree(tree, c),
                 p, i);
  }

  lemma BranchInside(tree: map<nat, Node>, n: Node, i: nat)
    requires !n.Low?
    ensures Subtree(tree, ChildNode(n, i)) <= Subtree(tree, n)
    ensures forall p :: p in tree && tree[p] == n ==> p in Subtree(tree, n) && p !in Subtree(tree, ChildNode(n, i))
  {
  }

  lemma PrunedSkip(mem: Mem, mem0: Mem, mem1: Mem, other: set<nat>, other0: set<nat>, tree: map<nat, Node>, p: nat,
                   i: nat)
    requires Whole(mem0, tree) && p in tree && i < ENTRIES && Pruned(mem, mem0, mem1, other, other0, tree, p, i)
    requires !IsValid(mem[p][i])
    ensures Pruned(mem, mem0, mem1, other, other0, tree, p, i + 1)
  {
    assert mem[p][i] == mem0[p][i];
    if tree[p].Low? {
      BranchesLow(tree, tree[p], i);
      BranchesLow(tree, tree[p], i + 1);
    } else {
      BareEntry(mem0, tree, p, i);
      BranchNext(tree, tree[p], i);
    }
    assert Branches(tree, tree[p], i + 1) == Branches(tree, tree[p], i);
  }

  lemma NoLeavesLeft(mem: Mem, all: set<nat>, free: seq<nat>, roots: set<nat>, seats: map<nat, Seat>,
                     frames: map<nat, Spot>, other: set<nat>, flat: Flat, r: nat)
    requires Ok(mem, all, free, roots, seats, frames, other, flat) && r in roots
    requires forall u :: u in flat && u.root == r ==> flat[u].None?
    ensures forall v: nat :: v < VPNS ==> !IsValid(Leaf(mem, r, v))
    ensures forall p :: p in frames ==> frames[p].root != r
  {
    forall v: nat | v < VPNS
      ensures !IsValid(Leaf(mem, r, v))
    {
      assert Leaf(mem, Spot(r, v).root, Spot(r, v).vpn) == Leaf(mem, r, v);
    }
  }

  // ------------------------------------------------------ flat-map edits

  /** mappages' effect once m pages are done: those m entries and no other. */
  ghost predicate RangeMapped(flat: Flat, flat': Flat, r: nat, v0: nat, m: nat, page: nat, flags: nat) {
    && (forall u :: u in flat' <==> u in flat)
    && forall u :: u in flat ==>
      flat'[u] == if u.root == r && v0 <= u.vpn < v0 + m then Some(Mapping(page + (u.vpn - v0), flags)) else flat[u]
  }

  /** uvmunmap's effect once m pages are done. */
  ghost predicate RangeCleared(flat: Flat, flat': Flat, r: nat, v0: nat, m: nat) {
    && (forall u :: u in flat' <==> u in flat)
    && forall u :: u in flat ==> flat'[u] == if u.root == r && v0 <= u.vpn < v0 + m then None else flat[u]
  }

  /** Page v of address space r is below MAXVA and has no translation. */
  ghost predicate FreeSpot(flat: Flat, r: nat, v: nat) {
    v < MAXVPN && Spot(r, v) in flat && flat[Spot(r, v)].None?
  }

  ghost predicate Unmapped(flat: Flat, r: nat, v0: nat, m: nat) {
    forall v: nat :: v0 <= v < v0 + m ==> FreeSpot(flat, r, v)
  }

  lemma UnmappedPrefix(flat: Flat, r: nat, v0: nat, n: nat, m: nat)
    requires m <= n
    ensures Unmapped(flat, r, v0, n) ==> Unmapped(flat, r, v0, m)
  {
  }

  /** The next page to map is as it was before the range was begun. */
  lemma NextSpot(flat: Flat, flat1: Flat, r: nat, v0: nat, m: nat, page: nat, flags: nat)
    requires RangeMapped(flat, flat1, r, v0, m, page, flags)
    ensures Unmapped(flat, r, v0, m + 1) ==>
      v0 + m < MAXVPN && Spot(r, v0 + m) in flat1 && flat1[Spot(r, v0 + m)].None?
  {
    if Unmapped(flat, r, v0, m + 1) {
      assert FreeSpot(flat, r, v0 + m);
    }
  }

  lemma RangeMappedNext(flat: Flat, flat1: Flat, flat2: Flat, r: nat, v0: nat, m: nat, page: nat, flags: nat)
    requires v0 + m < MAXVPN && Unmapped(flat, r, v0, m)
    requires RangeMapped(flat, flat1, r, v0, m, page, flags)
    requires Spot(r, v0 + m) in flat1 && flat1[Spot(r, v0 + m)].None?
    requires flat2 == flat1[Spot(r, v0 + m) := Some(Mapping(page + m, flags))]
    ensures RangeMapped(flat, flat2, r, v0, m + 1, page, flags) && Unmapped(flat, r, v0, m + 1)
  {
  }

  /** Table pages stay tables while others are added. */
  ghost predicate Grown(seats: map<nat, Seat>, seats': map<nat, Seat>) {
    forall s :: s in seats ==> s in seats' && seats'[s] == seats[s]
  }

  /** Only tables of address space r came to be. */
  ghost predicate Sprouted(seats: map<nat, Seat>, seats': map<nat, Seat>, r: nat) {
    forall s :: s in seats' && s !in seats ==> seats'[s].root == r
  }

  lemma SproutedTwice(seats0: map<nat, Seat>, seats1: map<nat, Seat>, seats2: map<nat, Seat>, r: nat)
    requires Sprouted(seats0, seats1, r) && Grown(seats1, seats2) && Sprouted(seats1, seats2, r)
    ensures Sprouted(seats0, seats2, r)
  {
  }

  lemma NoSeats(mem: Mem, roots: set<nat>, seats: map<nat, Seat>, r: nat)
    requires Trees(mem, roots, seats) && r !in roots
    ensures forall s :: s in seats ==> seats[s].root != r
  {
  }

  /** A new address space and its tables leave no trace once they are dropped. */
  lemma Uprooted(seats0: map<nat, Seat>, seats1: map<nat, Seat>, r: nat)
    requires Grown(seats0, seats1) && Sprouted(seats0, seats1, r) && forall s :: s in seats0 ==> seats0[s].root != r
    ensures WithoutTree(seats1, r) == seats0
  {
  }

  /** Frames and pages in the caller's hands keep their contents. */
  ghost predicate Kept(mem: Mem, mem': Mem, frames: map<nat, Spot>, other: set<nat>) {
    forall p :: p in frames || p in other ==> p in mem && p in mem' && mem'[p] == mem[p]
  }

  predicate InRange(u: Spot, r: nat, v0: nat, m: nat) {
    u.root == r && v0 <= u.vpn < v0 + m
  }

  /** Tracked frames outside the range, and nothing else. */
  ghost predicate FramesOutside(frames: map<nat, Spot>, frames': map<nat, Spot>, r: nat, v0: nat, m: nat) {
    && (forall p :: p in frames' ==> p in frames && frames'[p] == frames[p])
    && (forall p :: p in frames ==> (p in frames' <==> !InRange(frames[p], r, v0, m)))
  }

  /** Page v of address space r is mapped by a leaf entry, one with more than PTE_V set. */
  ghost predicate IsLeaf(flat: Flat, r: nat, v: nat) {
    v < MAXVPN && Spot(r, v) in flat && flat[Spot(r, v)].Some? && flat[Spot(r, v)].value.flags != PTE_V
  }

  ghost predicate AllLeaves(flat: Flat, r: nat, v0: nat, m: nat) {
    forall v: nat :: v0 <= v < v0 + m ==> IsLeaf(flat, r, v)
  }

  /** The frame mapped at a spot is the tracked frame of that very spot. */
  ghost predicate Tracked(flat: Flat, frames: map<nat, Spot>, u: Spot) {
    u in flat && flat[u].Some? && flat[u].value.page in frames && frames[flat[u].value.page] == u
  }

  /** Whatever is mapped in the range is tracked. */
  ghost predicate AllTracked(flat: Flat, frames: map<nat, Spot>, r: nat, v0: nat, m: nat) {
    forall v: nat :: v0 <= v < v0 + m && IsLeaf(flat, r, v) ==> Tracked(flat, frames, Spot(r, v))
  }

  lemma RangeClearedNext(flat: Flat, flat1: Flat, flat2: Flat, frames: map<nat, Spot>, frames1: map<nat, Spot>,
                         frames2: map<nat, Spot>, r: nat, v0: nat, m: nat)
    requires RangeCleared(flat, flat1, r, v0, m) && FramesOutside(frames, frames1, r, v0, m)
    requires Spot(r, v0 + m) in flat1 && flat2 == flat1[Spot(r, v0 + m) := None]
    requires FramesOutside(frames1, frames2, r, v0 + m, 1)
    ensures RangeCleared(flat, flat2, r, v0, m + 1) && FramesOutside(frames, frames2, r, v0, m + 1)
  {
    forall p | p in frames
      ensures p in frames2 <==> !InRange(frames[p], r, v0, m + 1)
    {
      assert InRange(frames[p], r, v0, m + 1) <==> InRange(frames[p], r, v0, m) || InRange(frames[p], r, v0 + m, 1);
    }
  }

  /** The page about to be cleared is as it was before the range was begun. */
  lemma NextLeaf(flat: Flat, flat1: Flat, frames: map<nat, Spot>, frames1: map<nat, Spot>, r: nat, v0: nat, m: nat)
    requires RangeCleared(flat, flat1, r, v0, m) && FramesOutside(frames, frames1, r, v0, m)
    ensures IsLeaf(flat1, r, v0 + m) <==> IsLeaf(flat, r, v0 + m)
    ensures Tracked(flat, frames, Spot(r, v0 + m)) ==> Tracked(flat1, frames1, Spot(r, v0 + m))
  {
    if Spot(r, v0 + m) in flat {
      assert flat1[Spot(r, v0 + m)] == flat[Spot(r, v0 + m)];
    }
  }

  /** m pages from v0 on were mapped to new tracked frames, and nothing else moved. */
  ghost predicate GrownBy(flat0: Flat, flat: Flat, frames0: map<nat, Spot>, frames: map<nat, Spot>, r: nat, v0: nat,
                          m: nat) {
    && (forall u :: u in flat <==> u in flat0)
    && (forall u :: u in flat0 && !InRange(u, r, v0, m) ==> flat[u] == flat0[u])
    && (forall u :: u in flat0 && InRange(u, r, v0, m) ==> Tracked(flat, frames, u))
    && FramesOutside(frames, frames0, r, v0, m)
  }

  /** What the new frames of a range are to hold: zeroes, or copies of the frames
      another address space had in an earlier memory. */
  datatype Want = Zeroed(flags: nat) | CopyOf(mem: Mem, flat: Flat, root: nat)

  ghost predicate Wanted(want: Want, v: nat, flags: nat, data: seq<nat>) {
    match want
    case Zeroed(f) => flags == f && data == ZeroPage()
    case CopyOf(mem, flat, root) =>
      && Spot(root, v) in flat && flat[Spot(root, v)].Some? && flat[Spot(root, v)].value.page in mem
      && flags == flat[Spot(root, v)].value.flags && data == mem[flat[Spot(root, v)].value.page]
  }

  /** The new frames of the range carry the wanted flags and contents. */
  ghost predicate Furnished(mem: Mem, flat: Flat, r: nat, v0: nat, m: nat, want: Want) {
    forall u :: u in flat && InRange(u, r, v0, m) ==>
      && flat[u].Some? && flat[u].value.page in mem
      && Wanted(want, u.vpn, flat[u].value.flags, mem[flat[u].value.page])
  }

  lemma GrownNext(flat0: Flat, flat1: Flat, flat2: Flat, frames0: map<nat, Spot>, frames1: map<nat, Spot>,
                  frames2: map<nat, Spot>, r: nat, v0: nat, m: nat, q: nat, flags: nat)
    requires GrownBy(flat0, flat1, frames0, frames1, r, v0, m) && FramesOk(flat1, frames1)
    requires Spot(r, v0 + m) in flat1 && flat1[Spot(r, v0 + m)].None?
    requires flat2 == flat1[Spot(r, v0 + m) := Some(Mapping(q, flags))]
    requires q !in frames1 && frames2 == frames1[q := Spot(r, v0 + m)]
    ensures GrownBy(flat0, flat2, frames0, frames2, r, v0, m + 1)
  {
    GrownFrames(flat1, frames0, frames1, frames2, r, v0, m, q);
    forall u | u in flat0 && InRange(u, r, v0, m + 1)
      ensures Tracked(flat2, frames2, u)
    {
      if u != Spot(r, v0 + m) {
        assert InRange(u, r, v0, m) && Tracked(flat1, frames1, u);
      }
    }
  }

  lemma GrownFrames(flat1: Flat, frames0: map<nat, Spot>, frames1: map<nat, Spot>, frames2: map<nat, Spot>, r: nat,
                    v0: nat, m: nat, q: nat)
    requires FramesOutside(frames1, frames0, r, v0, m) && FramesOk(flat1, frames1)
    requires Spot(r, v0 + m) in flat1 && flat1[Spot(r, v0 + m)].None?
    requires q !in frames1 && frames2 == frames1[q := Spot(r, v0 + m)]
    ensures FramesOutside(frames2, frames0, r, v0, m + 1)
  {
    forall p | p in frames2
      ensures p in frames0 <==> !InRange(frames2[p], r, v0, m + 1)
    {
      if p != q {
        assert frames1[p] != Spot(r, v0 + m);
        assert InRange(frames1[p], r, v0, m + 1) <==> InRange(frames1[p], r, v0, m);
      }
    }
  }

  lemma FurnishedNext(mem1: Mem, mem2: Mem, flat1: Flat, flat2: Flat, frames1: map<nat, Spot>, r: nat, v0: nat, m: nat,
                      q: nat, flags: nat, want: Want)
    requires Furnished(mem1, flat1, r, v0, m, want) && Kept(mem1, mem2, frames1, {})
    requires forall u :: u in flat1 && InRange(u, r, v0, m) ==> Tracked(flat1, frames1, u)
    requires flat2 == flat1[Spot(r, v0 + m) := Some(Mapping(q, flags))]
    requires q in mem2 && Wanted(want, v0 + m, flags, mem2[q])
    ensures Furnished(mem2, flat2, r, v0, m + 1, want)
  {
    forall u | u in flat2 && InRange(u, r, v0, m + 1) && u != Spot(r, v0 + m)
      ensures InRange(u, r, v0, m) && u in flat1 && flat2[u] == flat1[u] && Tracked(flat1, frames1, u)
    {
    }
  }

  /** The next page to map is as it was before growing began. */
  lemma NextGrow(flat0: Flat, flat: Flat, frames0: map<nat, Spot>, frames: map<nat, Spot>, r: nat, v0: nat, m: nat)
    requires GrownBy(flat0, flat, frames0, frames, r, v0, m)
    ensures Spot(r, v0 + m) in flat <==> Spot(r, v0 + m) in flat0
    ensures Spot(r, v0 + m) in flat0 ==> flat[Spot(r, v0 + m)] == flat0[Spot(r, v0 + m)]
    ensures Unmapped(flat0, r, v0, m + 1) ==> FreeSpot(flat, r, v0 + m)
    ensures forall u :: u in flat && InRange(u, r, v0, m) ==> Tracked(flat, frames, u)
  {
    if Unmapped(flat0, r, v0, m + 1) {
      assert FreeSpot(flat0, r, v0 + m);
    }
  }

  lemma FurnishedKept(mem1: Mem, mem2: Mem, flat: Flat, frames: map<nat, Spot>, r: nat, v0: nat, m: nat, want: Want)
    requires Furnished(mem1, flat, r, v0, m, want) && Kept(mem1, mem2, frames, {})
    requires forall u :: u in flat && InRange(u, r, v0, m) ==> Tracked(flat, frames, u)
    ensures Furnished(mem2, flat, r, v0, m, want)
  {
  }

  lemma GrownStep(mem1: Mem, mem2: Mem, flat0: Flat, flat1: Flat, flat2: Flat, frames0: map<nat, Spot>,
                  frames1: map<nat, Spot>, frames2: map<nat, Spot>, r: nat, v0: nat, m: nat, q: nat, flags: nat,
                  want: Want)
    requires GrownBy(flat0, flat1, frames0, frames1, r, v0, m) && FramesOk(flat1, frames1) && Unmapped(flat0, r, v0, m)
    requires Furnished(mem1, flat1, r, v0, m, want) && Kept(mem1, mem2, frames1, {})
    requires v0 + m < MAXVPN && Spot(r, v0 + m) in flat1 && flat1[Spot(r, v0 + m)].None?
    requires flat2 == flat1[Spot(r, v0 + m) := Some(Mapping(q, flags))]
    requires q !in frames1 && frames2 == frames1[q := Spot(r, v0 + m)]
    requires q in mem2 && Wanted(want, v0 + m, flags, mem2[q])
    ensures GrownBy(flat0, flat2, frames0, frames2, r, v0, m + 1) && Furnished(mem2, flat2, r, v0, m + 1, want)
    ensures Unmapped(flat0, r, v0, m + 1)
  {
    NextGrow(flat0, flat1, frames0, frames1, r, v0, m);
    GrownNext(flat0, flat1, flat2, frames0, frames1, frames2, r, v0, m, q, flags);
    FurnishedNext(mem1, mem2, flat1, flat2, frames1, r, v0, m, q, flags, want);
  }

  /** Growing one address space leaves the tracked leaves of another as they were. */
  lemma OtherSpaceKept(flat0: Flat, flat: Flat, frames0: map<nat, Spot>, frames: map<nat, Spot>, r: nat, v0: nat,
                       m: nat, mem0: Mem, mem: Mem, u: Spot)
    requires GrownBy(flat0, flat, frames0, frames, r, v0, m) && Kept(mem0, mem, frames0, {})
    requires u.root != r
    ensures u in flat <==> u in flat0
    ensures u in flat0 ==> flat[u] == flat0[u]
    ensures Tracked(flat0, frames0, u) ==>
      Tracked(flat, frames, u) && flat[u].value.page in mem && flat[u].value.page in mem0
    ensures Tracked(flat0, frames0, u) ==> mem[flat[u].value.page] == mem0[flat[u].value.page]
  {
  }

  /** What one more page copied, or not, does to the pages copied so far. */
  lemma CopyStep(mem0: Mem, mem1: Mem, mem2: Mem, flat0: Flat, flat1: Flat, flat2: Flat, frames0: map<nat, Spot>,
                 frames1: map<nat, Spot>, frames2: map<nat, Spot>, rOld: nat, r: nat, m: nat, q: nat, res: MapResult,
                 want: Want, other: set<nat>)
    requires want == CopyOf(mem0, flat0, rOld) && rOld != r && Unmapped(flat0, r, 0, m)
    requires
      && GrownBy(flat0, flat1, frames0, frames1, r, 0, m) && FramesOk(flat1, frames1)
      && Furnished(mem1, flat1, r, 0, m, want)
    requires Kept(mem0, mem1, frames0, other) && Kept(mem1, mem2, frames1, other)
    requires Spot(rOld, m) in flat0 && flat0[Spot(rOld, m)].Some? ==> Tracked(flat0, frames0, Spot(rOld, m))
    requires res.Mapped? ==> FreeSpot(flat1, r, m) && Spot(rOld, m) in flat1 && flat1[Spot(rOld, m)].Some?
    requires res.Mapped? ==> flat2 == flat1[Spot(r, m) := Some(Mapping(q, flat1[Spot(rOld, m)].value.flags))]
    requires res.Mapped? ==> q !in frames1 && frames2 == frames1[q := Spot(r, m)] && q in mem2
    requires res.Mapped? ==> flat1[Spot(rOld, m)].value.page in mem1 && mem2[q] == mem1[flat1[Spot(rOld, m)].value.page]
    requires !res.Mapped? ==> flat2 == flat1 && frames2 == frames1
    ensures Kept(mem0, mem2, frames0, other)
    ensures res.Mapped? ==> GrownBy(flat0, flat2, frames0, frames2, r, 0, m + 1) && Unmapped(flat0, r, 0, m + 1)
    ensures Furnished(mem2, flat2, r, 0, if res.Mapped? then m + 1 else m, want)
  {
    KeptOn(mem0, mem1, mem2, frames0, frames1, other);
    FramesKept(mem0, mem1, frames0, other);
    FramesKept(mem1, mem2, frames1, other);
    OtherSpaceKept(flat0, flat1, frames0, frames1, r, 0, m, mem0, mem1, Spot(rOld, m));
    if res.Mapped? {
      GrownStep(mem1, mem2, flat0, flat1, flat2, frames0, frames1, frames2, r, 0, m, q,
                flat1[Spot(rOld, m)].value.flags, want);
    } else {
      NextGrow(flat0, flat1, frames0, frames1, r, 0, m);
      FurnishedKept(mem1, mem2, flat1, frames1, r, 0, m, want);
    }
  }

  lemma KeptFewer(mem0: Mem, mem1: Mem, mem2: Mem, frames1: map<nat, Spot>, frames2: map<nat, Spot>, other0: set<nat>,
                  other1: set<nat>)
    requires
      && Kept(mem0, mem1, frames1, other0) && Kept(mem1, mem2, frames2, other1) && frames2.Keys <= frames1.Keys
      && other0 <= other1
    ensures Kept(mem0, mem2, frames2, other0)
  {
  }

  lemma FramesKept(mem0: Mem, mem1: Mem, frames: map<nat, Spot>, other: set<nat>)
    requires Kept(mem0, mem1, frames, other)
    ensures Kept(mem0, mem1, frames, {})
  {
  }

  /** Pages handed from one step to the next; other0 is in someone's hands throughout. */
  lemma KeptOn(mem0: Mem, mem1: Mem, mem2: Mem, frames0: map<nat, Spot>, frames1: map<nat, Spot>, other: set<nat>)
    requires Kept(mem0, mem1, frames0, other) && Kept(mem1, mem2, frames1, other) && frames0.Keys <= frames1.Keys
    ensures Kept(mem0, mem2, frames0, other)
  {
  }

  lemma NoneTrackedPrefix(frames: map<nat, Spot>, r: nat, v0: nat, n: nat, m: nat)
    requires m <= n && NoneTracked(frames, r, v0, n)
    ensures NoneTracked(frames, r, v0, m)
  {
  }

  lemma LeavesNext(flat: Flat, r: nat, v0: nat, n: nat, i: nat)
    requires i < n && AllLeaves(flat, r, v0, i)
    ensures AllLeaves(flat, r, v0, i + 1) <==> IsLeaf(flat, r, v0 + i)
    ensures AllLeaves(flat, r, v0, n) ==> IsLeaf(flat, r, v0 + i)
  {
  }

  /** Unmapping what was grown restores translations and frames exactly. */
  lemma RollBack(flat0: Flat, flat1: Flat, flat2: Flat, frames0: map<nat, Spot>, frames1: map<nat, Spot>,
                 frames2: map<nat, Spot>, r: nat, v0: nat, m: nat)
    requires GrownBy(flat0, flat1, frames0, frames1, r, v0, m) && Unmapped(flat0, r, v0, m)
    requires RangeCleared(flat1, flat2, r, v0, m) && FramesOutside(frames1, frames2, r, v0, m)
    ensures flat2 == flat0 && frames2 == frames0
  {
    forall u | u in flat0
      ensures flat2[u] == flat0[u]
    {
      if InRange(u, r, v0, m) {
        assert FreeSpot(flat0, r, u.vpn) && u == Spot(r, u.vpn);
      }
    }
  }

  /** PGROUNDUP(sz) in pages. */
  function PagesUp(sz: nat): nat { (sz + PGSIZE - 1) / PGSIZE }

  lemma PagesBelow(v: nat, sz: nat)
    ensures v * PGSIZE < sz <==> v < PagesUp(sz)
  {
  }

  /** Grown pages are leaves that unmapping may free. */
  lemma GrownUnmaps(mem: Mem, flat0: Flat, flat: Flat, frames0: map<nat, Spot>, frames: map<nat, Spot>, r: nat, v0: nat,
                    m: nat, want: Want)
    requires GrownBy(flat0, flat, frames0, frames, r, v0, m) && Unmapped(flat0, r, v0, m)
    requires Furnished(mem, flat, r, v0, m, want)
    requires forall v: nat, data: seq<nat> :: v0 <= v < v0 + m ==> !Wanted(want, v, PTE_V, data)
    ensures AllLeaves(flat, r, v0, m) && AllTracked(flat, frames, r, v0, m)
  {
    forall v: nat | v0 <= v < v0 + m
      ensures IsLeaf(flat, r, v) && Tracked(flat, frames, Spot(r, v))
    {
      assert FreeSpot(flat0, r, v) && InRange(Spot(r, v), r, v0, m);
    }
  }

  /** Copied pages are tracked, and leaves wherever the parent's are. */
  lemma CopyUnmaps(mem: Mem, mem0: Mem, flat0: Flat, flat: Flat, frames0: map<nat, Spot>, frames: map<nat, Spot>,
                   rOld: nat, rNew: nat, m: nat)
    requires GrownBy(flat0, flat, frames0, frames, rNew, 0, m) && Unmapped(flat0, rNew, 0, m)
    requires Furnished(mem, flat, rNew, 0, m, CopyOf(mem0, flat0, rOld))
    ensures AllTracked(flat, frames, rNew, 0, m)
    ensures AllLeaves(flat0, rOld, 0, m) ==> AllLeaves(flat, rNew, 0, m)
  {
    forall v: nat | v < m
      ensures Tracked(flat, frames, Spot(rNew, v))
      ensures IsLeaf(flat0, rOld, v) ==> IsLeaf(flat, rNew, v)
    {
      assert FreeSpot(flat0, rNew, v) && InRange(Spot(rNew, v), rNew, 0, m);
    }
  }

  const TRAMPOLINE: nat := MAXVPN - 1
  const TRAPFRAME: nat := MAXVPN - 2

  /** A page table as proc_pagetable leaves it. */
  ghost function ProcFlat(flat: Flat, r: nat, trampoline: nat, trapframe: nat): Flat {
    WithSpace(flat, r)[Spot(r, TRAMPOLINE) := Some(Mapping(trampoline, WithV(PTE_R + PTE_X)))]
                      [Spot(r, TRAPFRAME) := Some(Mapping(trapframe, WithV(PTE_R + PTE_W)))]
  }

  lemma FreshSpace(flat: Flat, r: nat)
    requires forall u :: u in flat ==> u.root != r
    ensures forall v: nat :: v < MAXVPN ==> FreeSpot(WithSpace(flat, r), r, v)
    ensures forall u :: u in WithSpace(flat, r) && u.root == r ==> WithSpace(flat, r)[u].None?
  {
  }

  lemma OneCleared(flat1: Flat, flat2: Flat, flat3: Flat, r: nat, v: nat, m: nat, x: Option<Mapping>)
    requires m == 1 && RangeCleared(flat2, flat3, r, v, m) && Spot(r, v) in flat1 && flat1[Spot(r, v)].None?
    requires flat2 == flat1[Spot(r, v) := x]
    ensures flat3 == flat1
  {
  }

  /** Clearing one range leaves the leaves of another. */
  lemma LeavesElsewhere(flat: Flat, flat': Flat, r: nat, v0: nat, m: nat, w0: nat, n: nat)
    requires RangeCleared(flat, flat', r, v0, m) && (w0 + n <= v0 || v0 + m <= w0)
    ensures AllLeaves(flat', r, w0, n) <==> AllLeaves(flat, r, w0, n)
  {
    forall v: nat | w0 <= v < w0 + n
      ensures IsLeaf(flat', r, v) <==> IsLeaf(flat, r, v)
    {
      if Spot(r, v) in flat {
        assert flat'[Spot(r, v)] == flat[Spot(r, v)];
      }
    }
  }

  lemma TrackedElsewhere(flat: Flat, flat': Flat, frames: map<nat, Spot>, frames': map<nat, Spot>, r: nat, v0: nat,
                         m: nat, n: nat)
    requires RangeCleared(flat, flat', r, v0, m) && n <= v0 && frames' == frames && AllTracked(flat, frames, r, 0, n)
    ensures AllTracked(flat', frames', r, 0, n)
  {
    forall v: nat | v < n && IsLeaf(flat', r, v)
      ensures Tracked(flat', frames', Spot(r, v))
    {
      assert flat'[Spot(r, v)] == flat[Spot(r, v)] && IsLeaf(flat, r, v);
    }
  }

  lemma TwoLeaves(flat: Flat, r: nat, v: nat)
    ensures AllLeaves(flat, r, v, 2) <==> AllLeaves(flat, r, v, 1) && AllLeaves(flat, r, v + 1, 1)
  {
  }

  lemma OneMapped(flat: Flat, flat': Flat, r: nat, v: nat, m: nat, page: nat, flags: nat)
    requires m <= 1 && RangeMapped(flat, flat', r, v, m, page, flags) && Spot(r, v) in flat
    ensures flat' == if m == 1 then flat[Spot(r, v) := Some(Mapping(page, flags))] else flat
  {
  }

  /** No tracked frame is mapped in the range. */
  ghost predicate NoneTracked(frames: map<nat, Spot>, r: nat, v0: nat, m: nat) {
    forall p :: p in frames ==> !InRange(frames[p], r, v0, m)
  }

  /** Adding an address space and dropping it again, whatever was mapped in it. */
  lemma SpaceRoundTrip(flat: Flat, flat': Flat, r: nat)
    requires forall u :: u in flat ==> u.root != r
    requires forall u :: u in flat' <==> u in WithSpace(flat, r)
    requires forall u :: u in flat ==> flat'[u] == flat[u]
    ensures WithoutSpace(flat', r) == flat
  {
  }

  lemma EmptyTrees(mem: Mem)
    requires MemOk(mem)
    ensures Trees(mem, {}, map[])
  {
  }

  datatype CopyResult = Copied | CopyFailed | CopyPanic
  datatype GrowResult = NewSize(sz: nat) | OutOfMemory | GrowPanic
  datatype WalkResult = Entry(page: nat, index: nat) | Missing | WalkPanic
  datatype MapResult = Mapped | NoMemory | MapPanic

  class Kernel {
    ghost const all: set<nat>       // pages from `end` to PHYSTOP
    var mem: Mem
    var free: seq<nat>              // kmem.freelist, head first
    ghost var roots: set<nat>       // page tables in use
    ghost var seats: map<nat, Seat> // pages serving as tables
    ghost var frames: map<nat, Spot>  // user frames mapped by them
    ghost var other: set<nat>       // allocated for anything else
    ghost var flat: Flat            // the translations the tables amount to

    ghost predicate Valid()
      reads this
    {
      Ok(mem, all, free, roots, seats, frames, other, flat)
    }

    /** kinit(): freerange() gives every whole page between two addresses to the free list, the last one first. */
    constructor (start: nat, stop: nat)
      ensures Valid() && roots == {} && seats == map[] && frames == map[] && other == {}
      ensures forall p: nat :: p in all <==> start <= p * PGSIZE && (p + 1) * PGSIZE <= stop
      ensures forall i :: 0 <= i < |free| ==> free[i] + i == stop / PGSIZE - 1
      ensures forall p: nat :: p in all <==> p in free
    {
      free, roots, seats, frames := [], {}, map[], map[];
      var pages := set q | q in Common.Below(stop / PGSIZE) && PagesUp(start) <= q;
      all, other := pages, pages;
      mem := map q | q in pages :: ZeroPage();
      flat := imap[];
      new;
      EmptyTrees(mem);
      Freerange(PagesUp(start), stop);
    }

    method Freerange(first: nat, stop: nat)
      requires Valid() && free == [] && forall q: nat :: q in other <==> first <= q < stop / PGSIZE
      modifies this`mem, this`free, this`other
      ensures Valid() && other == {} && forall i :: 0 <= i < |free| ==> free[i] + i == stop / PGSIZE - 1
    {
      var p := first;
      while (p + 1) * PGSIZE <= stop
        invariant Valid() && first <= p && (p <= stop / PGSIZE || free == [])
        invariant forall q: nat :: q in other <==> p <= q < stop / PGSIZE
        invariant forall i :: 0 <= i < |free| ==> free[i] + i == p - 1
        decreases stop - p * PGSIZE
      {
        Kfree(p);
        p := p + 1;
      }
    }

    /** Take the head of the free list and fill it with junk; None when empty. */
    method Kalloc() returns (q: Option<nat>)
      requires Valid()
      modifies this`mem, this`free, this`other
      ensures Valid()
      ensures q.None? <==> old(free) == []
      ensures q.None? ==> mem == old(mem) && free == old(free) && other == old(other)
      ensures q.Some? ==> q.value == old(free)[0] && free == old(free)[1..] && OnlyPage(old(mem), mem, q.value)
      ensures q.Some? ==> other == old(other) + {q.value}
      ensures q.Some? ==> q.value in all && q.value !in old(other) && q.value !in seats && q.value !in frames
    {
      if |free| == 0 {
        return None;
      }
      var r := free[0];
      AllocOk(mem, all, free, roots, seats, frames, other, flat);
      free := free[1..];
      other := other + {r};
      mem := mem[r := seq(ENTRIES, _ => 0x0505_0505_0505_0505)];
      ScratchOk(old(mem), mem, all, free, roots, seats, frames, other, flat, r);
      return Some(r);
    }

    /** Give a page back: fill it with junk and push it on the free list. */
    method Kfree(p: nat)
      requires Valid() && p in other
      modifies this`mem, this`free, this`other
      ensures Valid()
      ensures free == [p] + old(free) && other == old(other) - {p}
      ensures OnlyPage(old(mem), mem, p)
    {
      mem := mem[p := seq(ENTRIES, _ => 0x0101_0101_0101_0101)];
      ScratchOk(old(mem), mem, all, free, roots, seats, frames, other, flat, p);
      FreeOk(mem, all, free, roots, seats, frames, other, flat, p);
      free := [p] + free;
      other := other - {p};
    }

    /** walk() with alloc at an empty entry: a zeroed page becomes the missing table. */
    method MakeTable(p: nat, i: nat) returns (c: Option<nat>)
      requires Valid() && p in seats && !seats[p].node.Low? && i < ENTRIES && !IsValid(mem[p][i])
      modifies this`mem, this`free, this`other, this`seats
      ensures Valid() && other == old(other) && Grown(old(seats), seats)
      ensures c.Some? ==> c.value in seats && seats[c.value] == Seat(seats[p].root, ChildNode(seats[p].node, i))
      ensures c.None? ==> mem == old(mem) && free == old(free) == [] && seats == old(seats)
      ensures |free| + 1 >= |old(free)|
      ensures Sprouted(old(seats), seats, seats[p].root)
      ensures Kept(old(mem), mem, frames, other)
    {
      c := Kalloc();
      if c.None? {
        return;
      }
      Hook(p, i, c.value);
    }

    /** Zero page q and point entry i of table p to it. */
    method Hook(p: nat, i: nat, q: nat)
      requires Valid() && q in other && p in seats && !seats[p].node.Low? && i < ENTRIES && !IsValid(mem[p][i])
      modifies this`mem, this`other, this`seats
      ensures Valid() && other == old(other) - {q}
      ensures seats == old(seats)[q := Seat(old(seats)[p].root, ChildNode(old(seats)[p].node, i))]
      ensures mem == Hang(old(mem), p, i, q)
    {
      HangOk(mem, all, free, roots, seats, frames, other, flat, p, i, q);
      mem := mem[q := ZeroPage()];
      mem := Store(mem, p, i, MakePte(q, PTE_V));
      seats := seats[q := Seat(seats[p].root, ChildNode(seats[p].node, i))];
      other := other - {q};
    }

    /** One level of walk(): follow entry i of table p, or make the table it lacks. */
    method Descend(p: nat, i: nat, alloc: bool) returns (c: Option<nat>)
      requires Valid() && p in seats && !seats[p].node.Low? && i < ENTRIES
      modifies this`mem, this`free, this`other, this`seats
      ensures Valid() && other == old(other) && Grown(old(seats), seats)
      ensures c.Some? ==> c.value in seats && seats[c.value] == Seat(seats[p].root, ChildNode(seats[p].node, i))
      ensures !alloc || c.None? ==> mem == old(mem) && free == old(free) && seats == old(seats)
      ensures c.None? ==> Follow(old(mem), p, i).None? && (alloc ==> old(free) == [])
      ensures |free| + 1 >= |old(free)|
      ensures Sprouted(old(seats), seats, seats[p].root)
      ensures Kept(old(mem), mem, frames, other)
    {
      TableSeat(mem, roots, seats, p);
      var pte := mem[p][i];
      if IsValid(pte) {
        c := Some(PtePage(pte));
        SeatAt(mem, roots, seats, seats[p].root, ChildNode(seats[p].node, i));
      } else {
        if !alloc {
          return None;
        }
        c := MakeTable(p, i);
      }
    }

    /** walk(): the leaf entry for page v of page table r. No call changes a
        translation; one without alloc changes nothing. */
    method Walk(r: nat, v: nat, alloc: bool) returns (e: WalkResult)
      requires Valid() && r in roots
      modifies this`mem, this`free, this`other, this`seats
      ensures Valid() && other == old(other) && Grown(old(seats), seats)
      ensures e.WalkPanic? <==> v >= MAXVPN
      ensures e.Entry? ==> e.page in seats && seats[e.page] == Seat(r, Low(Px2(v), Px1(v))) && e.index == Px0(v)
      ensures e.Entry? ==> e.page in mem && e.index < |mem[e.page]|
      ensures e.Entry? ==> Spot(r, v) in flat && Decode(mem[e.page][e.index]) == flat[Spot(r, v)]
      ensures !alloc || e.WalkPanic? ==> mem == old(mem) && free == old(free) && seats == old(seats)
      ensures e.Missing? ==> Spot(r, v) in flat && flat[Spot(r, v)].None? && (alloc ==> free == [])
      ensures |free| + 2 >= |old(free)| && (alloc && e.Missing? ==> |old(free)| < 2)
      ensures Sprouted(old(seats), seats, r)
      ensures Kept(old(mem), mem, frames, other)
    {
      if v >= MAXVPN {
        return WalkPanic;
      }
      VpnIndices(v);
      RootSeat(mem, roots, seats, r);
      var p := r;
      var level := 2;
      while level > 0
        invariant 0 <= level <= 2
        invariant Valid() && other == old(other) && Grown(old(seats), seats)
        invariant p in seats && seats[p] == Seat(r, Reached(v, level))
        invariant !alloc ==> mem == old(mem) && free == old(free) && seats == old(seats)
        invariant |free| + 2 - level >= |old(free)|
        invariant Sprouted(old(seats), seats, r)
        invariant Kept(old(mem), mem, frames, other)
      {
        ghost var seats1 := seats;
        var c := Descend(p, if level == 2 then Px2(v) else Px1(v), alloc);
        SproutedTwice(old(seats), seats1, seats, r);
        if c.None? {
          MissingLeaf(mem, all, free, roots, seats, frames, other, flat, r, v, level, p);
          return Missing;
        }
        p := c.value;
        level := level - 1;
      }
      LeafIsFlat(mem, all, free, roots, seats, frames, other, flat, r, v, p);
      return Entry(p, Px0(v));
    }

    /** One turn of mappages' loop; flags is perm | PTE_V. */
    method MapOne(r: nat, v: nat, page: nat, flags: nat) returns (res: MapResult)
      requires Valid() && r in roots && flags < 1024 && IsValid(flags)
      modifies this`mem, this`free, this`other, this`seats, this`flat
      ensures Valid() && other == old(other) && Grown(old(seats), seats)
      ensures v < MAXVPN ==> Spot(r, v) in old(flat)
      ensures res.Mapped? ==> v < MAXVPN && old(flat)[Spot(r, v)].None?
      ensures res.Mapped? ==> flat == old(flat)[Spot(r, v) := Some(Mapping(page, flags))]
      ensures !res.Mapped? ==> flat == old(flat)
      ensures |free| + 2 >= |old(free)| && (res.NoMemory? ==> free == [] && |old(free)| < 2)
      ensures Sprouted(old(seats), seats, r)
      ensures Kept(old(mem), mem, frames, other)
      ensures v < MAXVPN && old(flat)[Spot(r, v)].None? ==> !res.MapPanic?
    {
      var e := Walk(r, v, true);
      if e.WalkPanic? {
        return MapPanic;
      }
      if e.Missing? {
        return NoMemory;
      }
      if IsValid(mem[e.page][e.index]) {
        return MapPanic;
      }
      DecodeMade(page, flags);
      StoreOk(mem, all, free, roots, seats, frames, other, flat, r, v, e.page, MakePte(page, flags));
      mem := Store(mem, e.page, e.index, MakePte(page, flags));
      flat := flat[Spot(r, v) := Some(Mapping(page, flags))];
      return Mapped;
    }

    /** The turn of mappages' loop for the page after the first m. */
    method MapNext(r: nat, v0: nat, m: nat, page: nat, flags: nat, ghost flat0: Flat) returns (res: MapResult)
      requires Valid() && r in roots && flags < 1024 && IsValid(flags)
      requires RangeMapped(flat0, flat, r, v0, m, page, flags) && Unmapped(flat0, r, v0, m)
      modifies this`mem, this`free, this`other, this`seats, this`flat
      ensures Valid() && other == old(other) && Grown(old(seats), seats)
      ensures res.Mapped? ==> RangeMapped(flat0, flat, r, v0, m + 1, page, flags) && Unmapped(flat0, r, v0, m + 1)
      ensures !res.Mapped? ==> flat == old(flat)
      ensures |free| + 2 >= |old(free)| && (res.NoMemory? ==> free == [] && |old(free)| < 2)
      ensures Sprouted(old(seats), seats, r)
      ensures Kept(old(mem), mem, frames, other)
      ensures Unmapped(flat0, r, v0, m + 1) ==> !res.MapPanic?
    {
      ghost var flat1 := flat;
      NextSpot(flat0, flat1, r, v0, m, page, flags);
      res := MapOne(r, v0 + m, page + m, flags);
      if res.Mapped? {
        RangeMappedNext(flat0, flat1, flat, r, v0, m, page, flags);
      }
    }

    /** mappages' loop, by page number. */
    method MapRange(r: nat, v0: nat, n: nat, page: nat, flags: nat) returns (res: MapResult, ghost done: nat)
      requires Valid() && r in roots && flags < 1024 && IsValid(flags) && n > 0
      modifies this`mem, this`free, this`other, this`seats, this`flat
      ensures Valid() && other == old(other) && Grown(old(seats), seats)
      ensures done <= n && Unmapped(old(flat), r, v0, done)
      ensures RangeMapped(old(flat), flat, r, v0, done, page, flags)
      ensures if res.Mapped? then done == n else done < n
      ensures |free| + 2 * n >= |old(free)| && (res.NoMemory? ==> free == [] && |old(free)| < 2 * n)
      ensures Sprouted(old(seats), seats, r)
      ensures Kept(old(mem), mem, frames, other)
      ensures Unmapped(old(flat), r, v0, n) ==> !res.MapPanic?
    {
      ghost var flat0 := flat;
      var i := 0;
      while true
        invariant 0 <= i < n
        invariant Valid() && other == old(other) && Grown(old(seats), seats)
        invariant RangeMapped(flat0, flat, r, v0, i, page, flags) && Unmapped(flat0, r, v0, i)
        invariant |free| + 2 * i >= |old(free)|
        invariant Sprouted(old(seats), seats, r)
        invariant Kept(old(mem), mem, frames, other)
        decreases n - i
      {
        UnmappedPrefix(flat0, r, v0, n, i + 1);
        ghost var seats1 := seats;
        res := MapNext(r, v0, i, page, flags, flat0);
        SproutedTwice(old(seats), seats1, seats, r);
        if !res.Mapped? {
          return res, i;
        }
        i := i + 1;
        if i == n {
          return Mapped, i;
        }
      }
    }

    /** mappages(): size bytes of pages from va on, to frames from pa on. Whatever the
        outcome, exactly the first `done` pages got their translation and no other
        translation of any address space moved. */
    method Mappages(r: nat, va: nat, size: nat, pa: nat, perm: nat) returns (res: MapResult, ghost done: nat)
      requires Valid() && r in roots && perm < 1024
      modifies this`mem, this`free, this`other, this`seats, this`flat
      ensures Valid() && other == old(other) && Grown(old(seats), seats)
      ensures done <= size / PGSIZE && Unmapped(old(flat), r, va / PGSIZE, done)
      ensures RangeMapped(old(flat), flat, r, va / PGSIZE, done, pa / PGSIZE, WithV(perm))
      ensures res.Mapped? ==> va % PGSIZE == 0 && size % PGSIZE == 0 && size > 0 && done == size / PGSIZE
      ensures !res.Mapped? && size > 0 && size % PGSIZE == 0 ==> done < size / PGSIZE
      ensures res.NoMemory? ==> free == [] && |old(free)| < 2 * (size / PGSIZE)
      ensures |free| + 2 * (size / PGSIZE) >= |old(free)|
      ensures Sprouted(old(seats), seats, r)
      ensures Kept(old(mem), mem, frames, other)
      ensures va % PGSIZE == 0 && size % PGSIZE == 0 && size > 0 && Unmapped(old(flat), r, va / PGSIZE, size / PGSIZE)
        ==> !res.MapPanic?
    {
      if va % PGSIZE != 0 || size % PGSIZE != 0 || size == 0 {
        return MapPanic, 0;
      }
      WithVValid(perm);
      res, done := MapRange(r, va / PGSIZE, size / PGSIZE, pa / PGSIZE, WithV(perm));
    }

    /** The frame mapped at a spot, if tracked, passes into the caller's hands. */
    ghost method Untrack(u: Spot)
      requires Valid() && u in flat && flat[u].Some?
      modifies this`other, this`frames
      ensures Valid() && FramesOutside(old(frames), frames, u.root, u.vpn, 1)
      ensures forall f :: f in frames ==> frames[f] != u
      ensures if old(Tracked(flat, frames, u))
              then other == old(other) + {flat[u].value.page} && flat[u].value.page !in old(other)
              else other == old(other)
    {
      var q := flat[u].value.page;
      if Tracked(flat, frames, u) {
        DisownOk(mem, all, free, roots, seats, frames, other, flat, q);
        frames := frames - {q};
        other := other + {q};
      }
    }

    /** The frame of a leaf is no longer the address space's, and free if asked; the table p is as it was. */
    method Unframe(r: nat, v: nat, page: nat, doFree: bool, ghost p: nat)
      requires Valid() && r in roots && IsLeaf(flat, r, v) && page == flat[Spot(r, v)].value.page
      requires p in seats && p in mem && (doFree ==> Tracked(flat, frames, Spot(r, v)))
      modifies this`mem, this`free, this`other, this`frames
      ensures Valid() && (doFree || NoneTracked(old(frames), r, v, 1) ==> other == old(other))
      ensures FramesOutside(old(frames), frames, r, v, 1) && forall f :: f in frames ==> frames[f] != Spot(r, v)
      ensures old(other) <= other && Kept(old(mem), mem, frames, old(other)) && p in mem && mem[p] == old(mem)[p]
    {
      Untrack(Spot(r, v));
      if doFree {
        Kfree(page);
      }
    }

    /** The end of one turn of uvmunmap's loop: free the frame, clear the entry. */
    method ClearLeaf(r: nat, v: nat, p: nat, doFree: bool)
      requires Valid() && r in roots && IsLeaf(flat, r, v)
      requires p in seats && seats[p] == Seat(r, Low(Px2(v), Px1(v))) && p in mem && Px0(v) < |mem[p]|
      requires Decode(mem[p][Px0(v)]) == flat[Spot(r, v)]
      requires doFree ==> Tracked(flat, frames, Spot(r, v))
      modifies this`mem, this`free, this`other, this`frames, this`flat
      ensures Valid() && (doFree || NoneTracked(old(frames), r, v, 1) ==> other == old(other))
      ensures flat == old(flat)[Spot(r, v) := None] && FramesOutside(old(frames), frames, r, v, 1)
      ensures old(other) <= other && Kept(old(mem), mem, frames, old(other))
    {
      var pte := mem[p][Px0(v)];
      Unframe(r, v, PtePage(pte), doFree, p);
      StoreOk(mem, all, free, roots, seats, frames, other, flat, r, v, p, 0);
      mem := Store(mem, p, Px0(v), 0);
      flat := flat[Spot(r, v) := None];
    }

    /** One turn of uvmunmap's loop; false stands for any of its three panics. */
    method UnmapOne(r: nat, v: nat, doFree: bool) returns (ok: bool)
      requires Valid() && r in roots
      requires doFree && IsLeaf(flat, r, v) ==> Tracked(flat, frames, Spot(r, v))
      modifies this`mem, this`free, this`other, this`frames, this`flat, this`seats
      ensures Valid() && seats == old(seats) && (doFree || NoneTracked(old(frames), r, v, 1) ==> other == old(other))
      ensures ok <==> IsLeaf(old(flat), r, v)
      ensures !ok ==>
        flat == old(flat) && frames == old(frames) && mem == old(mem) && free == old(free) && other == old(other)
      ensures ok ==> flat == old(flat)[Spot(r, v) := None] && FramesOutside(old(frames), frames, r, v, 1)
      ensures old(other) <= other && Kept(old(mem), mem, frames, old(other))
    {
      var e := Walk(r, v, false);
      if !e.Entry? {
        return false;
      }
      var pte := mem[e.page][e.index];
      if !IsValid(pte) {
        return false;
      }
      if PteFlags(pte) == PTE_V {
        return false;
      }
      ClearLeaf(r, v, e.page, doFree);
      return true;
    }

    /** uvmunmap's turn for the page after the first m. */
    method UnmapNext(r: nat, v0: nat, m: nat, doFree: bool, ghost flat0: Flat, ghost frames0: map<nat, Spot>)
      returns (ok: bool)
      requires Valid() && r in roots
      requires RangeCleared(flat0, flat, r, v0, m) && FramesOutside(frames0, frames, r, v0, m)
      requires doFree ==> AllTracked(flat0, frames0, r, v0, m + 1)
      modifies this`mem, this`free, this`other, this`frames, this`flat, this`seats
      ensures Valid() && seats == old(seats) && (doFree || NoneTracked(frames0, r, v0, m + 1) ==> other == old(other))
      ensures ok <==> IsLeaf(flat0, r, v0 + m)
      ensures var m' := if ok then m + 1 else m;
        RangeCleared(flat0, flat, r, v0, m') && FramesOutside(frames0, frames, r, v0, m')
      ensures old(other) <= other && Kept(old(mem), mem, frames, old(other)) && frames.Keys <= old(frames).Keys
    {
      ghost var flat1, frames1 := flat, frames;
      NextLeaf(flat0, flat, frames0, frames, r, v0, m);
      assert NoneTracked(frames0, r, v0, m + 1) ==> NoneTracked(frames, r, v0 + m, 1);
      ok := UnmapOne(r, v0 + m, doFree);
      if ok {
        RangeClearedNext(flat0, flat1, flat, frames0, frames1, frames, r, v0, m);
      }
    }

    /** uvmunmap(): it completes exactly when every page of the range is mapped by a
        leaf; the first `done` pages lose their translation and, with doFree, their
        frames go back to the free list, each once. */
    method Uvmunmap(r: nat, va: nat, npages: nat, doFree: bool) returns (ok: bool, ghost done: nat)
      requires Valid() && r in roots
      requires doFree ==> AllTracked(flat, frames, r, va / PGSIZE, npages)
      modifies this`mem, this`free, this`other, this`frames, this`flat, this`seats
      ensures Valid() && seats == old(seats)
      ensures doFree || NoneTracked(old(frames), r, va / PGSIZE, npages) ==> other == old(other)
      ensures ok <==> va % PGSIZE == 0 && AllLeaves(old(flat), r, va / PGSIZE, npages)
      ensures done <= npages && (ok ==> done == npages)
      ensures RangeCleared(old(flat), flat, r, va / PGSIZE, done)
      ensures FramesOutside(old(frames), frames, r, va / PGSIZE, done)
      ensures old(other) <= other && Kept(old(mem), mem, frames, old(other))
    {
      if va % PGSIZE != 0 {
        return false, 0;
      }
      ok, done := UnmapRange(r, va / PGSIZE, npages, doFree);
    }

    /** uvmunmap's loop, by page number. */
    method UnmapRange(r: nat, v0: nat, npages: nat, doFree: bool) returns (ok: bool, ghost done: nat)
      requires Valid() && r in roots && (doFree ==> AllTracked(flat, frames, r, v0, npages))
      modifies this`mem, this`free, this`other, this`frames, this`flat, this`seats
      ensures
        && Valid() && seats == old(seats) && (doFree || NoneTracked(old(frames), r, v0, npages) ==> other == old(other))
      ensures ok <==> AllLeaves(old(flat), r, v0, npages)
      ensures done <= npages && (ok ==> done == npages)
      ensures RangeCleared(old(flat), flat, r, v0, done) && FramesOutside(old(frames), frames, r, v0, done)
      ensures old(other) <= other && Kept(old(mem), mem, frames, old(other))
    {
      ghost var flat0, frames0, mem0 := flat, frames, mem;
      var i := 0;
      while i < npages
        invariant 0 <= i <= npages
        invariant
          && Valid() && seats == old(seats) && (doFree || NoneTracked(frames0, r, v0, npages) ==> other == old(other))
        invariant RangeCleared(flat0, flat, r, v0, i) && FramesOutside(frames0, frames, r, v0, i)
        invariant AllLeaves(flat0, r, v0, i)
        invariant old(other) <= other && Kept(mem0, mem, frames, old(other))
      {
        ghost var mem1, frames1, other1 := mem, frames, other;
        if NoneTracked(frames0, r, v0, npages) {
          NoneTrackedPrefix(frames0, r, v0, npages, i + 1);
        }
        LeavesNext(flat0, r, v0, npages, i);
        ok := UnmapNext(r, v0, i, doFree, flat0, frames0);
        KeptFewer(mem0, mem1, mem, frames1, frames, old(other), other1);
        if !ok {
          return false, i;
        }
        i := i + 1;
      }
      return true, i;
    }

    /** Map a page in the caller's hands at page v; it becomes a tracked frame. */
    method MapFrame(r: nat, v: nat, q: nat, flags: nat) returns (res: MapResult)
      requires Valid() && r in roots && flags < 1024 && IsValid(flags) && q in other
      modifies this`mem, this`free, this`other, this`seats, this`flat, this`frames
      ensures Valid() && Grown(old(seats), seats)
      ensures v < MAXVPN ==> Spot(r, v) in old(flat)
      ensures v < MAXVPN && old(flat)[Spot(r, v)].None? ==> !res.MapPanic?
      ensures res.Mapped? ==>
        v < MAXVPN && old(flat)[Spot(r, v)].None? && flat == old(flat)[Spot(r, v) := Some(Mapping(q, flags))]
      ensures res.Mapped? ==> q !in old(frames) && frames == old(frames)[q := Spot(r, v)] && other == old(other) - {q}
      ensures !res.Mapped? ==> flat == old(flat) && frames == old(frames) && other == old(other)
      ensures |free| + 2 >= |old(free)| && (res.NoMemory? ==> |old(free)| < 2)
      ensures Kept(old(mem), mem, old(frames), old(other))
    {
      res := MapOne(r, v, q, flags);
      if res.Mapped? {
        AdoptOk(mem, all, free, roots, seats, frames, other, flat, q, Spot(r, v));
        frames := frames[q := Spot(r, v)];
        other := other - {q};
      }
    }

    /** Fill a page just allocated and map it at page v, or give it back. */
    method FillAndMap(r: nat, v: nat, q: nat, data: seq<nat>, flags: nat) returns (res: MapResult)
      requires Valid() && r in roots && flags < 1024 && IsValid(flags) && q in other && MemOk(mem[q := data])
      modifies this`mem, this`free, this`other, this`seats, this`flat, this`frames
      ensures Valid() && Grown(old(seats), seats) && (!res.MapPanic? ==> other == old(other) - {q})
      ensures v < MAXVPN ==> Spot(r, v) in old(flat)
      ensures v < MAXVPN && old(flat)[Spot(r, v)].None? ==> !res.MapPanic?
      ensures res.Mapped? ==>
        v < MAXVPN && old(flat)[Spot(r, v)].None? && flat == old(flat)[Spot(r, v) := Some(Mapping(q, flags))]
      ensures res.Mapped? ==> q !in old(frames) && frames == old(frames)[q := Spot(r, v)] && q in mem && mem[q] == data
      ensures !res.Mapped? ==> flat == old(flat) && frames == old(frames)
      ensures |free| + 2 >= |old(free)| && (res.NoMemory? ==> |old(free)| < 2)
      ensures Kept(old(mem), mem, old(frames), old(other) - {q})
    {
      mem := mem[q := data];
      ScratchOk(old(mem), mem, all, free, roots, seats, frames, other, flat, q);
      res := MapFrame(r, v, q, flags);
      if res.NoMemory? {
        Kfree(q);
      }
    }

    /** One turn of uvmalloc's loop: a zeroed frame for page v, or the page given back. */
    method GrowOne(r: nat, v: nat, flags: nat) returns (res: MapResult, ghost q: nat)
      requires Valid() && r in roots && flags < 1024 && IsValid(flags)
      modifies this`mem, this`free, this`other, this`seats, this`flat, this`frames
      ensures Valid() && Grown(old(seats), seats) && (!res.MapPanic? ==> other == old(other))
      ensures v < MAXVPN ==> Spot(r, v) in old(flat)
      ensures v < MAXVPN && old(flat)[Spot(r, v)].None? ==> !res.MapPanic?
      ensures res.Mapped? ==>
        v < MAXVPN && old(flat)[Spot(r, v)].None? && flat == old(flat)[Spot(r, v) := Some(Mapping(q, flags))]
      ensures res.Mapped? ==>
        q !in old(frames) && frames == old(frames)[q := Spot(r, v)] && q in mem && mem[q] == ZeroPage()
      ensures !res.Mapped? ==> flat == old(flat) && frames == old(frames)
      ensures |free| + 3 >= |old(free)| && (res.NoMemory? ==> |old(free)| < 3)
      ensures Kept(old(mem), mem, old(frames), old(other))
    {
      assert v < MAXVPN ==> Spot(r, v) in flat;
      var page := Kalloc();
      if page.None? {
        return NoMemory, 0;
      }
      q := page.value;
      res := FillAndMap(r, v, page.value, ZeroPage(), flags);
    }

    /** uvmdealloc(): shrink from oldsz to newsz bytes; false is a panic below. */
    method Uvmdealloc(r: nat, oldsz: nat, newsz: nat) returns (sz: nat, ok: bool)
      requires Valid() && r in roots
      requires newsz < oldsz ==> AllTracked(flat, frames, r, PagesUp(newsz), PagesUp(oldsz) - PagesUp(newsz))
      modifies this`mem, this`free, this`other, this`frames, this`flat, this`seats
      ensures Valid() && seats == old(seats) && other == old(other)
      ensures newsz >= oldsz ==> ok && sz == oldsz && flat == old(flat) && frames == old(frames)
      ensures newsz < oldsz && ok ==> sz == newsz
      ensures newsz < oldsz && ok ==>
        RangeCleared(old(flat), flat, r, PagesUp(newsz), PagesUp(oldsz) - PagesUp(newsz))
      ensures newsz < oldsz && ok ==>
        FramesOutside(old(frames), frames, r, PagesUp(newsz), PagesUp(oldsz) - PagesUp(newsz))
      ensures newsz < oldsz && AllLeaves(old(flat), r, PagesUp(newsz), PagesUp(oldsz) - PagesUp(newsz)) ==> ok
      ensures Kept(old(mem), mem, frames, old(other))
    {
      if newsz >= oldsz {
        return oldsz, true;
      }
      ok := true;
      if PagesUp(newsz) < PagesUp(oldsz) {
        ghost var done;
        ok, done := Uvmunmap(r, PagesUp(newsz) * PGSIZE, PagesUp(oldsz) - PagesUp(newsz), true);
      }
      sz := newsz;
    }

    /** uvmalloc's turn for the page after the first m. */
    method GrowNext(r: nat, v0: nat, m: nat, flags: nat, ghost flat0: Flat, ghost frames0: map<nat, Spot>,
                    ghost want: Want) returns (res: MapResult)
      requires Valid() && r in roots && flags < 1024 && IsValid(flags)
      requires GrownBy(flat0, flat, frames0, frames, r, v0, m) && Furnished(mem, flat, r, v0, m, want)
      requires want == Zeroed(flags) && Unmapped(flat0, r, v0, m)
      modifies this`mem, this`free, this`other, this`seats, this`flat, this`frames
      ensures Valid() && (!res.MapPanic? ==> other == old(other))
      ensures res.Mapped? ==>
        GrownBy(flat0, flat, frames0, frames, r, v0, m + 1) && Furnished(mem, flat, r, v0, m + 1, want)
      ensures res.Mapped? ==> Unmapped(flat0, r, v0, m + 1)
      ensures !res.Mapped? ==> flat == old(flat) && frames == old(frames) && Furnished(mem, flat, r, v0, m, want)
      ensures Unmapped(flat0, r, v0, m + 1) ==> !res.MapPanic?
      ensures |free| + 3 >= |old(free)| && (res.NoMemory? ==> |old(free)| < 3)
      ensures Kept(old(mem), mem, old(frames), old(other))
    {
      ghost var flat1, frames1, mem1 := flat, frames, mem;
      ghost var q;
      NextGrow(flat0, flat, frames0, frames, r, v0, m);
      res, q := GrowOne(r, v0 + m, flags);
      if res.Mapped? {
        GrownStep(mem1, mem, flat0, flat1, flat, frames0, frames1, frames, r, v0, m, q, flags, want);
      } else {
        FurnishedKept(mem1, mem, flat, frames, r, v0, m, want);
      }
    }

    /** uvmalloc's way out: uvmdealloc of the pages mapped so far. */
    method Ungrow(r: nat, v0: nat, m: nat, ghost flat0: Flat, ghost frames0: map<nat, Spot>, ghost want: Want)
      requires Valid() && r in roots && Unmapped(flat0, r, v0, m)
      requires GrownBy(flat0, flat, frames0, frames, r, v0, m) && Furnished(mem, flat, r, v0, m, want)
      requires forall v: nat, data: seq<nat> :: v0 <= v < v0 + m ==> !Wanted(want, v, PTE_V, data)
      modifies this`mem, this`free, this`other, this`seats, this`flat, this`frames
      ensures Valid() && other == old(other) && flat == flat0 && frames == frames0
      ensures Kept(old(mem), mem, frames0, other)
    {
      ghost var flat1, frames1 := flat, frames;
      GrownUnmaps(mem, flat0, flat, frames0, frames, r, v0, m, want);
      assert PagesUp((v0 + m) * PGSIZE) == v0 + m && PagesUp(v0 * PGSIZE) == v0;
      var sz, ok := Uvmdealloc(r, (v0 + m) * PGSIZE, v0 * PGSIZE);
      RollBack(flat0, flat1, flat, frames0, frames1, frames, r, v0, m);
    }

    /** uvmalloc(): grow from oldsz to newsz bytes. All the new pages get zeroed frames
        of their own, or none does and every translation and frame is as before. */
    method Uvmalloc(r: nat, oldsz: nat, newsz: nat, xperm: nat) returns (res: GrowResult)
      requires Valid() && r in roots && xperm < 1024
      modifies this`mem, this`free, this`other, this`seats, this`flat, this`frames
      ensures Valid() && (!res.GrowPanic? ==> other == old(other))
      ensures newsz < oldsz ==> res == NewSize(oldsz) && flat == old(flat) && frames == old(frames)
      ensures newsz >= oldsz && res.NewSize? ==> res.sz == newsz
      ensures newsz >= oldsz && res.NewSize? ==>
        GrownBy(old(flat), flat, old(frames), frames, r, PagesUp(oldsz), PagesUp(newsz) - PagesUp(oldsz))
      ensures newsz >= oldsz && res.NewSize? ==>
        Furnished(mem, flat, r, PagesUp(oldsz), PagesUp(newsz) - PagesUp(oldsz), Zeroed(UserFlags(xperm)))
      ensures res.OutOfMemory? ==> flat == old(flat) && frames == old(frames)
      ensures res.OutOfMemory? ==> newsz >= oldsz && |old(free)| < 3 * (PagesUp(newsz) - PagesUp(oldsz))
      ensures Kept(old(mem), mem, old(frames), old(other))
      ensures newsz >= oldsz && Unmapped(old(flat), r, PagesUp(oldsz), PagesUp(newsz) - PagesUp(oldsz)) ==>
        !res.GrowPanic?
    {
      if newsz < oldsz {
        return NewSize(oldsz);
      }
      UserFlagsLeaf(xperm);
      res := GrowFrom(r, PagesUp(oldsz), newsz, UserFlags(xperm), PagesUp(newsz) - PagesUp(oldsz));
    }

    /** The loop of uvmalloc from page v0 on, n pages in all. */
    method GrowFrom(r: nat, v0: nat, newsz: nat, flags: nat, ghost n: nat) returns (res: GrowResult)
      requires Valid() && r in roots && v0 + n == PagesUp(newsz)
      requires flags < 1024 && IsValid(flags) && flags != PTE_V
      modifies this`mem, this`free, this`other, this`seats, this`flat, this`frames
      ensures Valid() && (!res.GrowPanic? ==> other == old(other))
      ensures res.NewSize? ==> res.sz == newsz && GrownBy(old(flat), flat, old(frames), frames, r, v0, n)
      ensures res.NewSize? ==> Furnished(mem, flat, r, v0, n, Zeroed(flags))
      ensures res.OutOfMemory? ==> flat == old(flat) && frames == old(frames) && |old(free)| < 3 * n
      ensures Kept(old(mem), mem, old(frames), old(other))
      ensures Unmapped(old(flat), r, v0, n) ==> !res.GrowPanic?
    {
      ghost var mem0, flat0, frames0 := mem, flat, frames;
      ghost var want := Zeroed(flags);
      var i := 0;
      while (v0 + i) * PGSIZE < newsz
        invariant 0 <= i <= n
        invariant Valid() && other == old(other)
        invariant GrownBy(flat0, flat, frames0, frames, r, v0, i) && Furnished(mem, flat, r, v0, i, want)
        invariant Unmapped(flat0, r, v0, i) && |free| + 3 * i >= |old(free)|
        invariant Kept(mem0, mem, frames0, other)
        decreases n - i
      {
        PagesBelow(v0 + i, newsz);
        UnmappedPrefix(flat0, r, v0, n, i + 1);
        var one := GrowTurn(r, v0, i, flags, mem0, flat0, frames0, want);
        if one.MapPanic? {
          return GrowPanic;
        }
        if one.NoMemory? {
          return OutOfMemory;
        }
        i := i + 1;
      }
      PagesBelow(v0 + i, newsz);
      return NewSize(newsz);
    }

    /** One turn of that loop, with the way out when memory runs out. */
    method GrowTurn(r: nat, v0: nat, m: nat, flags: nat, ghost mem0: Mem, ghost flat0: Flat,
                    ghost frames0: map<nat, Spot>, ghost want: Want) returns (res: MapResult)
      requires Valid() && r in roots && flags < 1024 && IsValid(flags) && flags != PTE_V
      requires GrownBy(flat0, flat, frames0, frames, r, v0, m) && Furnished(mem, flat, r, v0, m, want)
      requires want == Zeroed(flags) && Unmapped(flat0, r, v0, m) && Kept(mem0, mem, frames0, other)
      modifies this`mem, this`free, this`other, this`seats, this`flat, this`frames
      ensures Valid() && (!res.MapPanic? ==> other == old(other)) && Kept(mem0, mem, frames0, old(other))
      ensures res.Mapped? ==>
        GrownBy(flat0, flat, frames0, frames, r, v0, m + 1) && Furnished(mem, flat, r, v0, m + 1, want)
      ensures res.Mapped? ==> Unmapped(flat0, r, v0, m + 1) && |free| + 3 >= |old(free)|
      ensures res.NoMemory? ==> flat == flat0 && frames == frames0 && |old(free)| < 3
      ensures Unmapped(flat0, r, v0, m + 1) ==> !res.MapPanic?
    {
      ghost var mem1, frames1 := mem, frames;
      res := GrowNext(r, v0, m, flags, flat0, frames0, want);
      KeptOn(mem0, mem1, mem, frames0, frames1, old(other));
      if res.NoMemory? {
        ghost var mem2 := mem;
        Ungrow(r, v0, m, flat0, frames0, want);
        KeptOn(mem0, mem2, mem, frames0, frames0, old(other));
      }
    }

    /** One turn of uvmcopy's loop: a copy of page v's frame for the child. */
    method CopyOne(rOld: nat, rNew: nat, v: nat) returns (res: MapResult, ghost q: nat)
      requires Valid() && rOld in roots && rNew in roots && rOld != rNew
      requires Spot(rOld, v) in flat && flat[Spot(rOld, v)].Some? ==> Tracked(flat, frames, Spot(rOld, v))
      modifies this`mem, this`free, this`other, this`seats, this`flat, this`frames
      ensures Valid() && (!res.MapPanic? ==> other == old(other))
      ensures v < MAXVPN ==> Spot(rNew, v) in old(flat)
      ensures IsLeaf(old(flat), rOld, v) && FreeSpot(old(flat), rNew, v) ==> !res.MapPanic?
      ensures res.Mapped? ==>
        FreeSpot(old(flat), rNew, v) && Spot(rOld, v) in old(flat) && old(flat)[Spot(rOld, v)].Some?
      ensures res.Mapped? ==> flat == old(flat)[Spot(rNew, v) := Some(Mapping(q, old(flat)[Spot(rOld, v)].value.flags))]
      ensures res.Mapped? ==> q !in old(frames) && frames == old(frames)[q := Spot(rNew, v)]
      ensures res.Mapped? ==> q in mem && old(flat)[Spot(rOld, v)].value.page in old(mem)
      ensures res.Mapped? ==> mem[q] == old(mem)[old(flat)[Spot(rOld, v)].value.page]
      ensures !res.Mapped? ==> flat == old(flat) && frames == old(frames)
      ensures |free| + 3 >= |old(free)| && (res.NoMemory? ==> |old(free)| < 3)
      ensures Kept(old(mem), mem, old(frames), old(other))
    {
      assert v < MAXVPN ==> Spot(rNew, v) in flat;
      q := 0;
      var e := Walk(rOld, v, false);
      if !e.Entry? {
        return MapPanic, 0;
      }
      var pte := mem[e.page][e.index];
      if !IsValid(pte) {
        return MapPanic, 0;
      }
      DecodeValid(pte);
      var pa, flags := PtePage(pte), PteFlags(pte);
      assert Tracked(flat, frames, Spot(rOld, v));
      res, q := CopyFrame(rNew, v, pa, flags);
    }

    /** A new frame with the contents of frame pa, mapped at page v. */
    method CopyFrame(r: nat, v: nat, pa: nat, flags: nat) returns (res: MapResult, ghost q: nat)
      requires Valid() && r in roots && flags < 1024 && IsValid(flags) && pa in frames && pa in mem
      modifies this`mem, this`free, this`other, this`seats, this`flat, this`frames
      ensures Valid() && (!res.MapPanic? ==> other == old(other))
      ensures v < MAXVPN ==> Spot(r, v) in old(flat)
      ensures FreeSpot(old(flat), r, v) ==> !res.MapPanic?
      ensures res.Mapped? ==> FreeSpot(old(flat), r, v) && flat == old(flat)[Spot(r, v) := Some(Mapping(q, flags))]
      ensures res.Mapped? ==>
        q !in old(frames) && frames == old(frames)[q := Spot(r, v)] && q in mem && mem[q] == old(mem)[pa]
      ensures !res.Mapped? ==> flat == old(flat) && frames == old(frames)
      ensures |free| + 3 >= |old(free)| && (res.NoMemory? ==> |old(free)| < 3)
      ensures Kept(old(mem), mem, old(frames), old(other))
    {
      assert v < MAXVPN ==> Spot(r, v) in flat;
      var page := Kalloc();
      if page.None? {
        return NoMemory, 0;
      }
      q := page.value;
      res := FillAndMap(r, v, page.value, mem[pa], flags);
    }

    /** uvmcopy's turn for the page after the first m. */
    method CopyNext(rOld: nat, rNew: nat, m: nat, ghost mem0: Mem, ghost flat0: Flat, ghost frames0: map<nat, Spot>)
      returns (res: MapResult)
      requires Valid() && rOld in roots && rNew in roots && rOld != rNew
      requires
        && GrownBy(flat0, flat, frames0, frames, rNew, 0, m)
        && Furnished(mem, flat, rNew, 0, m, CopyOf(mem0, flat0, rOld))
      requires Unmapped(flat0, rNew, 0, m) && Kept(mem0, mem, frames0, other)
      requires Spot(rOld, m) in flat0 && flat0[Spot(rOld, m)].Some? ==> Tracked(flat0, frames0, Spot(rOld, m))
      modifies this`mem, this`free, this`other, this`seats, this`flat, this`frames
      ensures Valid() && (!res.MapPanic? ==> other == old(other)) && Kept(mem0, mem, frames0, old(other))
      ensures res.Mapped? ==> GrownBy(flat0, flat, frames0, frames, rNew, 0, m + 1) && Unmapped(flat0, rNew, 0, m + 1)
      ensures res.Mapped? ==> Furnished(mem, flat, rNew, 0, m + 1, CopyOf(mem0, flat0, rOld))
      ensures !res.Mapped? ==> flat == old(flat) && frames == old(frames)
      ensures !res.Mapped? ==> Furnished(mem, flat, rNew, 0, m, CopyOf(mem0, flat0, rOld))
      ensures |free| + 3 >= |old(free)| && (res.NoMemory? ==> |old(free)| < 3)
      ensures IsLeaf(flat0, rOld, m) && Unmapped(flat0, rNew, 0, m + 1) ==> !res.MapPanic?
    {
      ghost var flat1, frames1, mem1 := flat, frames, mem;
      ghost var q;
      ghost var want := CopyOf(mem0, flat0, rOld);
      NextGrow(flat0, flat, frames0, frames, rNew, 0, m);
      OtherSpaceKept(flat0, flat, frames0, frames, rNew, 0, m, mem0, mem, Spot(rOld, m));
      assert IsLeaf(flat0, rOld, m) ==> IsLeaf(flat, rOld, m);
      assert Unmapped(flat0, rNew, 0, m + 1) ==> FreeSpot(flat, rNew, m);
      res, q := CopyOne(rOld, rNew, m);
      CopyStep(mem0, mem1, mem, flat0, flat1, flat, frames0, frames1, frames, rOld, rNew, m, q, res, want, old(other));
    }

    /** uvmcopy(): every page below sz of the parent gets a frame of its own in the child
        with the same flags and contents, or the child and the frames are as before. */
    method Uvmcopy(rOld: nat, rNew: nat, sz: nat) returns (res: CopyResult)
      requires Valid() && rOld in roots && rNew in roots && rOld != rNew
      requires forall v: nat :: v < PagesUp(sz) && Spot(rOld, v) in flat && flat[Spot(rOld, v)].Some? ==>
        Tracked(flat, frames, Spot(rOld, v))
      modifies this`mem, this`free, this`other, this`seats, this`flat, this`frames
      ensures Valid() && (!res.CopyPanic? ==> other == old(other))
      ensures res.Copied? ==> GrownBy(old(flat), flat, old(frames), frames, rNew, 0, PagesUp(sz))
      ensures res.Copied? ==> Furnished(mem, flat, rNew, 0, PagesUp(sz), CopyOf(old(mem), old(flat), rOld))
      ensures res.CopyFailed? ==> flat == old(flat) && frames == old(frames) && |old(free)| < 3 * PagesUp(sz)
      ensures !res.CopyPanic? ==> Kept(old(mem), mem, old(frames), old(other))
      ensures AllLeaves(old(flat), rOld, 0, PagesUp(sz)) && Unmapped(old(flat), rNew, 0, PagesUp(sz)) ==>
        !res.CopyPanic?
    {
      ghost var n := PagesUp(sz);
      ghost var mem0, flat0, frames0 := mem, flat, frames;
      ghost var want := CopyOf(mem0, flat0, rOld);
      var i := 0;
      while i * PGSIZE < sz
        invariant 0 <= i <= n
        invariant Valid() && other == old(other) && Kept(mem0, mem, frames0, other) && |free| + 3 * i >= |old(free)|
        invariant GrownBy(flat0, flat, frames0, frames, rNew, 0, i) && Furnished(mem, flat, rNew, 0, i, want)
        invariant Unmapped(flat0, rNew, 0, i)
        decreases n - i
      {
        UnmappedPrefix(flat0, rNew, 0, n, i + 1);
        assert AllLeaves(flat0, rOld, 0, n) ==> IsLeaf(flat0, rOld, i);
        var one := CopyNext(rOld, rNew, i, mem0, flat0, frames0);
        if one.MapPanic? {
          return CopyPanic;
        }
        if one.NoMemory? {
          ghost var mem2 := mem;
          var ok := Uncopy(rOld, rNew, i, mem0, flat0, frames0);
          if ok {
            KeptOn(mem0, mem2, mem, frames0, frames0, old(other));
          }
          return if ok then CopyFailed else CopyPanic;
        }
        i := i + 1;
      }
      assert i == n;
      return Copied;
    }

    /** uvmcopy's way out: uvmunmap of the pages copied so far. */
    method Uncopy(rOld: nat, rNew: nat, m: nat, ghost mem0: Mem, ghost flat0: Flat, ghost frames0: map<nat, Spot>)
      returns (ok: bool)
      requires Valid() && rNew in roots && Unmapped(flat0, rNew, 0, m)
      requires
        && GrownBy(flat0, flat, frames0, frames, rNew, 0, m)
        && Furnished(mem, flat, rNew, 0, m, CopyOf(mem0, flat0, rOld))
      modifies this`mem, this`free, this`other, this`seats, this`flat, this`frames
      ensures Valid() && other == old(other)
      ensures ok ==> flat == flat0 && frames == frames0 && Kept(old(mem), mem, frames0, other)
      ensures AllLeaves(flat0, rOld, 0, m) ==> ok
    {
      ghost var flat1, frames1 := flat, frames;
      ghost var done;
      CopyUnmaps(mem, mem0, flat0, flat, frames0, frames, rOld, rNew, m);
      ok, done := Uvmunmap(rNew, 0, m, true);
      if ok {
        RollBack(flat0, flat1, flat, frames0, frames1, frames, rNew, 0, m);
      }
    }

    /** uvmcreate(): a new empty address space, or None when out of memory. */
    method Uvmcreate() returns (q: Option<nat>)
      requires Valid()
      modifies this`mem, this`free, this`other, this`seats, this`roots, this`flat
      ensures Valid() && other == old(other)
      ensures |free| + 1 >= |old(free)| && (q.None? <==> old(free) == [])
      ensures q.None? ==> roots == old(roots) && flat == old(flat) && seats == old(seats)
      ensures q.Some? ==>
        q.value !in old(roots) && roots == old(roots) + {q.value} && flat == WithSpace(old(flat), q.value)
      ensures q.Some? ==> q.value !in old(seats) && seats == old(seats)[q.value := Seat(q.value, Root)]
      ensures Kept(old(mem), mem, frames, other)
    {
      q := Kalloc();
      if q.None? {
        return;
      }
      Found(q.value);
    }

    /** Zero page q and take it as the root of an address space. */
    method Found(q: nat)
      requires Valid() && q in other
      modifies this`mem, this`other, this`seats, this`roots, this`flat
      ensures Valid() && other == old(other) - {q} && OnlyPage(old(mem), mem, q)
      ensures q !in old(seats) && seats == old(seats)[q := Seat(q, Root)]
      ensures q !in old(roots) && roots == old(roots) + {q} && flat == WithSpace(old(flat), q)
    {
      if q in roots {
        RootSeat(mem, roots, seats, q);
      }
      mem := mem[q := ZeroPage()];
      ScratchOk(old(mem), mem, all, free, roots, seats, frames, other, flat, q);
      NewSpaceOk(mem, all, free, roots, seats, frames, other, flat, q);
      roots, seats := roots + {q}, seats[q := Seat(q, Root)];
      other, flat := other - {q}, WithSpace(flat, q);
    }

    /** One entry of freewalk's loop: free the table under it, if any, and clear it. */
    method FreeEntry(p: nat, i: nat, ghost tree: map<nat, Node>, ghost mem0: Mem, ghost other0: set<nat>,
                     ghost mem1: Mem)
      requires Valid() && Whole(mem0, tree) && p in tree && i < ENTRIES
      requires Pruned(mem, mem0, mem1, other, other0, tree, p, i)
      modifies this`mem, this`free, this`other
      ensures Valid() && Pruned(mem, mem0, mem1, other, other0, tree, p, i + 1)
      decreases Height(tree[p]), 1
    {
      var pte := mem[p][i];
      if IsValid(pte) && IsPointer(pte) {
        FreeBranch(p, i, tree, mem0, other0, mem1);
      } else if IsValid(pte) {
        BranchReady(mem, mem0, mem1, other, other0, tree, p, i);
        assert false;
      } else {
        PrunedSkip(mem, mem0, mem1, other, other0, tree, p, i);
      }
    }

    /** freewalk() below a valid entry, which is then cleared. */
    method FreeBranch(p: nat, i: nat, ghost tree: map<nat, Node>, ghost mem0: Mem, ghost other0: set<nat>,
                      ghost mem1: Mem)
      requires Valid() && Whole(mem0, tree) && p in tree && i < ENTRIES
      requires Pruned(mem, mem0, mem1, other, other0, tree, p, i) && IsValid(mem[p][i])
      modifies this`mem, this`free, this`other
      ensures Valid() && Pruned(mem, mem0, mem1, other, other0, tree, p, i + 1)
      decreases Height(tree[p]), 0
    {
      BranchReady(mem, mem0, mem1, other, other0, tree, p, i);
      var child := PtePage(mem[p][i]);
      Freewalk(child, tree, mem0);
      PrunedBranch(old(mem), mem, mem0, mem1, old(other), other, other0, tree, p, i);
      Wipe(p, i);
    }

    /** Clear entry i of a page that is in the caller's hands. */
    method Wipe(p: nat, i: nat)
      requires Valid() && p in other && p in mem && i < |mem[p]|
      modifies this`mem
      ensures Valid() && mem == Store(old(mem), p, i, 0)
    {
      mem := Store(mem, p, i, 0);
      ScratchOk(old(mem), mem, all, free, roots, seats, frames, other, flat, p);
    }

    /** freewalk() on a detached tree: every page of the subtree at p is freed exactly
        once, and no other page is touched. */
    method Freewalk(p: nat, ghost tree: map<nat, Node>, ghost mem0: Mem)
      requires Valid() && Whole(mem0, tree) && p in tree
      requires forall s :: s in Subtree(tree, tree[p]) ==> s in other && s in mem && mem[s] == mem0[s]
      modifies this`mem, this`free, this`other
      ensures Valid() && other == old(other) - Subtree(tree, tree[p])
      ensures mem.Keys == old(mem).Keys && forall s :: s in mem && s !in Subtree(tree, tree[p]) ==>
        mem[s] == old(mem)[s]
      decreases Height(tree[p]), 2
    {
      BranchesAll(mem0, tree, p);
      var i := 0;
      while i < ENTRIES
        invariant 0 <= i <= ENTRIES && Valid()
        invariant Pruned(mem, mem0, old(mem), other, old(other), tree, p, i)
      {
        FreeEntry(p, i, tree, mem0, old(other), old(mem));
        i := i + 1;
      }
      Kfree(p);
    }

    /** The books drop an address space with no tracked frames left. */
    ghost method Detach(r: nat)
      requires Valid() && forall p :: p in frames ==> frames[p].root != r
      modifies this`roots, this`seats, this`other, this`flat
      ensures Valid() && roots == old(roots) - {r} && seats == WithoutTree(old(seats), r)
      ensures other == old(other) + TreeOf(old(seats), r).Keys && flat == WithoutSpace(old(flat), r)
    {
      DetachOk(mem, all, free, roots, seats, frames, other, flat, r);
      other := other + TreeOf(seats, r).Keys;
      roots, seats, flat := roots - {r}, WithoutTree(seats, r), WithoutSpace(flat, r);
    }

    /** freewalk() on the root of an address space without translations. */
    method FreeTables(r: nat)
      requires Valid() && r in roots
      requires forall u :: u in flat && u.root == r ==> flat[u].None?
      modifies this`mem, this`free, this`other, this`roots, this`seats, this`flat
      ensures Valid() && roots == old(roots) - {r} && other == old(other) && flat == WithoutSpace(old(flat), r)
      ensures seats == WithoutTree(old(seats), r)
      ensures Kept(old(mem), mem, frames, other)
    {
      ghost var tree := TreeOf(seats, r);
      NoLeavesLeft(mem, all, free, roots, seats, frames, other, flat, r);
      TreeIsWhole(mem, roots, seats, r);
      assert Subtree(tree, Root) == tree.Keys;
      assert tree.Keys !! other;
      Detach(r);
      Freewalk(r, tree, mem);
      assert other == old(other);
    }

    /** uvmfree(): unmap the sz bytes of user memory, then free every table. When it
        completes, every page the address space held is free again. */
    method Uvmfree(r: nat, sz: nat) returns (ok: bool)
      requires Valid() && r in roots
      requires AllTracked(flat, frames, r, 0, PagesUp(sz))
      requires forall u :: u in flat && u.root == r && u.vpn >= PagesUp(sz) ==> flat[u].None?
      modifies this`mem, this`free, this`other, this`roots, this`seats, this`flat, this`frames
      ensures Valid() && other == old(other)
      ensures ok <==> AllLeaves(old(flat), r, 0, PagesUp(sz))
      ensures ok ==> roots == old(roots) - {r} && WithoutSpace(old(flat), r) == flat
      ensures ok ==> forall p :: p in frames <==> p in old(frames) && old(frames)[p].root != r
      ensures ok ==> forall p :: p in frames ==> frames[p] == old(frames)[p]
      ensures ok ==> seats == WithoutTree(old(seats), r)
      ensures ok ==> forall p :: p in old(seats) && old(seats)[p].root == r ==> p in free
      ensures frames.Keys <= old(frames).Keys
      ensures Kept(old(mem), mem, frames, other)
    {
      ok := true;
      ghost var mem0 := mem;
      if sz > 0 {
        ghost var done;
        ok, done := Uvmunmap(r, 0, PagesUp(sz), true);
        if !ok {
          return;
        }
      }
      ghost var mem1, frames1 := mem, frames;
      FreeTables(r);
      KeptFewer(mem0, mem1, mem, frames1, frames, old(other), other);
    }

    /** One page of kernel memory mapped into a process; it stays in the kernel's hands. */
    method MapFixed(r: nat, v: nat, page: nat, perm: nat) returns (res: MapResult)
      requires Valid() && r in roots && perm < 1024 && FreeSpot(flat, r, v)
      modifies this`mem, this`free, this`other, this`seats, this`flat
      ensures Valid() && other == old(other) && !res.MapPanic?
      ensures res.Mapped? ==> flat == old(flat)[Spot(r, v) := Some(Mapping(page, WithV(perm)))]
      ensures res.NoMemory? ==> flat == old(flat) && |old(free)| < 2
      ensures Grown(old(seats), seats) && Sprouted(old(seats), seats, r)
      ensures |free| + 2 >= |old(free)| && Kept(old(mem), mem, frames, other)
    {
      ghost var flat0 := flat;
      ghost var done;
      assert Unmapped(flat0, r, v, 1);
      res, done := Mappages(r, v * PGSIZE, PGSIZE, page * PGSIZE, perm);
      assert v * PGSIZE / PGSIZE == v && page * PGSIZE / PGSIZE == page && v * PGSIZE % PGSIZE == 0;
      OneMapped(flat0, flat, r, v, done, page, WithV(perm));
    }

    /** uvmfree(pagetable, 0) on an address space made since `flat0`: all is as it was. */
    method Abandon(r: nat, ghost flat0: Flat, ghost seats0: map<nat, Seat>)
      requires Valid() && r in roots && NoneTracked(frames, r, 0, VPNS)
      requires forall u :: u in flat && u.root == r ==> flat[u].None?
      requires (forall u :: u in flat0 ==> u.root != r) && flat == WithSpace(flat0, r)
      requires Grown(seats0, seats) && Sprouted(seats0, seats, r) && forall s :: s in seats0 ==> seats0[s].root != r
      modifies this`mem, this`free, this`other, this`roots, this`seats, this`flat, this`frames
      ensures Valid() && roots == old(roots) - {r} && other == old(other) && flat == flat0 && frames == old(frames)
      ensures seats == seats0
      ensures Kept(old(mem), mem, frames, other)
    {
      SpaceRoundTrip(flat0, flat, r);
      Uprooted(seats0, seats, r);
      var ok := Uvmfree(r, 0);
      assert frames == old(frames);
    }

    /** uvmunmap of the one page a MapFixed mapped: translations are as before it. */
    method UnmapFixed(r: nat, v: nat, ghost flat1: Flat, ghost x: Mapping)
      requires Valid() && r in roots && NoneTracked(frames, r, 0, VPNS) && x.flags != PTE_V
      requires FreeSpot(flat1, r, v) && flat == flat1[Spot(r, v) := Some(x)]
      modifies this`mem, this`free, this`other, this`frames, this`flat, this`seats
      ensures Valid() && flat == flat1 && other == old(other) && frames == old(frames)
      ensures seats == old(seats)
      ensures Kept(old(mem), mem, frames, other)
    {
      ghost var flat2 := flat;
      ghost var done;
      var ok;
      assert v * PGSIZE / PGSIZE == v && IsLeaf(flat, r, v);
      ok, done := Uvmunmap(r, v * PGSIZE, 1, false);
      OneCleared(flat1, flat2, flat, r, v, done, Some(x));
      assert frames == old(frames);
    }

    /** proc_pagetable(): an address space holding just the trampoline and trapframe
        pages, or nothing at all with every page given back. */
    method ProcPagetable(trampoline: nat, trapframe: nat) returns (q: Option<nat>)
      requires Valid()
      modifies this`mem, this`free, this`other, this`roots, this`seats, this`flat, this`frames
      ensures Valid() && other == old(other) && frames == old(frames)
      ensures q.None? ==> roots == old(roots) && flat == old(flat) && seats == old(seats) && |old(free)| < 5
      ensures Kept(old(mem), mem, frames, other)
      ensures q.Some? ==> q.value !in old(roots) && roots == old(roots) + {q.value}
      ensures q.Some? ==> flat == ProcFlat(old(flat), q.value, trampoline, trapframe)
    {
      q := Uvmcreate();
      if q.None? {
        return;
      }
      NoSeats(old(mem), old(roots), old(seats), q.value);
      var ok := MapKernelPages(q.value, trampoline, trapframe, old(flat), old(seats));
      if !ok {
        return None;
      }
    }

    /** The two mappages calls of proc_pagetable, in an address space just made. */
    method MapKernelPages(r: nat, trampoline: nat, trapframe: nat, ghost flat0: Flat, ghost seats0: map<nat, Seat>)
      returns (ok: bool)
      requires Valid() && r in roots && NoneTracked(frames, r, 0, VPNS)
      requires (forall u :: u in flat0 ==> u.root != r) && flat == WithSpace(flat0, r)
      requires Grown(seats0, seats) && Sprouted(seats0, seats, r) && forall s :: s in seats0 ==> seats0[s].root != r
      modifies this`mem, this`free, this`other, this`roots, this`seats, this`flat, this`frames
      ensures Valid() && other == old(other) && frames == old(frames) && Kept(old(mem), mem, frames, other)
      ensures ok ==> roots == old(roots) && flat == ProcFlat(flat0, r, trampoline, trapframe)
      ensures !ok ==> roots == old(roots) - {r} && flat == flat0 && seats == seats0 && |old(free)| < 4
    {
      ghost var flat1 := flat;
      FreshSpace(flat0, r);
      ghost var seats1 := seats;
      var res := MapFixed(r, TRAMPOLINE, trampoline, PTE_R + PTE_X);
      SproutedTwice(seats0, seats1, seats, r);
      if !res.Mapped? {
        Abandon(r, flat0, seats0);
        return false;
      }
      seats1 := seats;
      res := MapFixed(r, TRAPFRAME, trapframe, PTE_R + PTE_W);
      SproutedTwice(seats0, seats1, seats, r);
      if !res.Mapped? {
        UnmapFixed(r, TRAMPOLINE, flat1, Mapping(trampoline, WithV(PTE_R + PTE_X)));
        Abandon(r, flat0, seats0);
        return false;
      }
      return true;
    }

    /** The two uvmunmap calls of proc_freepagetable. */
    method UnmapKernelPages(r: nat) returns (ok: bool)
      requires Valid() && r in roots && NoneTracked(frames, r, TRAPFRAME, 2)
      modifies this`mem, this`free, this`other, this`frames, this`flat, this`seats
      ensures Valid() && other == old(other) && frames == old(frames)
      ensures seats == old(seats)
      ensures Kept(old(mem), mem, frames, other)
      ensures ok <==> AllLeaves(old(flat), r, TRAPFRAME, 2)
      ensures ok ==> RangeCleared(old(flat), flat, r, TRAPFRAME, 2)
    {
      ghost var flat0 := flat;
      TwoLeaves(flat0, r, TRAPFRAME);
      ok := UnmapKept(r, TRAMPOLINE);
      if !ok {
        return;
      }
      LeavesElsewhere(flat0, flat, r, TRAMPOLINE, 1, TRAPFRAME, 1);
      ok := UnmapKept(r, TRAPFRAME);
    }

    /** uvmunmap of one page that is no tracked frame. */
    method UnmapKept(r: nat, v: nat) returns (ok: bool)
      requires Valid() && r in roots && NoneTracked(frames, r, v, 1)
      modifies this`mem, this`free, this`other, this`frames, this`flat, this`seats
      ensures Valid() && other == old(other) && frames == old(frames) && seats == old(seats)
      ensures Kept(old(mem), mem, frames, other) && (ok <==> AllLeaves(old(flat), r, v, 1))
      ensures ok ==> RangeCleared(old(flat), flat, r, v, 1)
    {
      ghost var done;
      assert v * PGSIZE / PGSIZE == v;
      ok, done := Uvmunmap(r, v * PGSIZE, 1, false);
      assert frames == old(frames);
    }

    /** proc_freepagetable(): the trampoline and trapframe pages are unmapped but kept,
        and every page of the address space itself goes back to the free list. */
    method ProcFreepagetable(r: nat, sz: nat) returns (ok: bool)
      requires Valid() && r in roots && PagesUp(sz) <= TRAPFRAME
      requires NoneTracked(frames, r, TRAPFRAME, 2) && AllTracked(flat, frames, r, 0, PagesUp(sz))
      requires forall u ::
        u in flat && u.root == r && u.vpn >= PagesUp(sz) && u.vpn != TRAMPOLINE && u.vpn != TRAPFRAME ==> flat[u].None?
      modifies this`mem, this`free, this`other, this`roots, this`seats, this`flat, this`frames
      ensures Valid() && other == old(other)
      ensures ok <==> AllLeaves(old(flat), r, 0, PagesUp(sz)) && AllLeaves(old(flat), r, TRAPFRAME, 2)
      ensures ok ==> roots == old(roots) - {r} && flat == WithoutSpace(old(flat), r)
      ensures ok ==> forall p :: p in frames <==> p in old(frames) && old(frames)[p].root != r
      ensures ok ==> seats == WithoutTree(old(seats), r)
      ensures ok ==> forall p :: p in old(seats) && old(seats)[p].root == r ==> p in free
      ensures Kept(old(mem), mem, frames, other)
    {
      ghost var flat0, frames0 := flat, frames;
      ok := UnmapKernelPages(r);
      if !ok {
        return;
      }
      LeavesElsewhere(flat0, flat, r, TRAPFRAME, 2, 0, PagesUp(sz));
      TrackedElsewhere(flat0, flat, frames0, frames, r, TRAPFRAME, 2, PagesUp(sz));
      ghost var mem1 := mem;
      ok := Uvmfree(r, sz);
      KeptFewer(old(mem), mem1, mem, frames0, frames, other, other);
    }
  }
}
