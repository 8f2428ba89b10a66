/** Three-level Sv39 page tables over physical memory, for any number of address
    spaces at once, and what single stores into table pages do to translations. */
module Sv39 {
  import opened Common

  const PGSIZE: nat := 4096
  const ENTRIES: nat := 512
  /** MAXVA in pages: one bit less than the 27 bits Sv39 can index. */
  const MAXVPN: nat := 0x400_0000
  const VPNS: nat := 0x800_0000

  const PTE_V: nat := 1
  const PTE_R: nat := 2
  const PTE_W: nat := 4
  const PTE_X: nat := 8
  const PTE_U: nat := 16

  /** A page as 512 64-bit words, by physical page number. */
  type Mem = map<nat, seq<nat>>

  predicate MemOk(mem: Mem) {
    forall p :: p in mem ==> |mem[p]| == ENTRIES
  }

  function ZeroPage(): (z: seq<nat>)
    ensures |z| == ENTRIES && forall i :: 0 <= i < ENTRIES ==> z[i] == 0
  {
    seq(ENTRIES, _ => 0)
  }

  // ------------------------------------------------------- PTE encoding

  predicate IsValid(pte: nat) { pte % 2 == 1 }

  /** PTE2PA as a page number; PA2PTE and PTE_FLAGS are its inverses. */
  function PtePage(pte: nat): nat { pte / 1024 }

  function PteFlags(pte: nat): nat { pte % 1024 }

  /** perm | PTE_V. */
  function WithV(perm: nat): nat {
    if perm % 2 == 1 then perm else perm + 1
  }

  /** PA2PTE(pa) | flags for flags within the low ten bits. */
  function MakePte(page: nat, flags: nat): nat {
    page * 1024 + flags
  }

  /** PTE2PA and PTE_FLAGS take apart what PA2PTE and the flags put together. */
  lemma MakePteParts(page: nat, flags: nat)
    requires flags < 1024
    ensures PtePage(MakePte(page, flags)) == page && PteFlags(MakePte(page, flags)) == flags
    ensures IsValid(MakePte(page, flags)) <==> IsValid(flags)
  {
  }

  /** What a leaf entry grants: the frame and the flag bits, or nothing when PTE_V is clear. */
  datatype Mapping = Mapping(page: nat, flags: nat)

  function Decode(pte: nat): Option<Mapping> {
    if IsValid(pte) then Some(Mapping(PtePage(pte), PteFlags(pte))) else None
  }

  /** A valid entry comes apart into its page and its flags. */
  lemma DecodeValid(pte: nat)
    requires IsValid(pte)
    ensures PteFlags(pte) < 1024 && IsValid(PteFlags(pte)) && Decode(pte) == Some(Mapping(PtePage(pte), PteFlags(pte)))
  {
    var q, f := pte / 1024, pte % 1024;
    assert pte == 2 * (512 * q) + f && f == 2 * (f / 2) + f % 2;
    assert pte == 2 * (512 * q + f / 2) + f % 2;
  }

  lemma DecodeMade(page: nat, flags: nat)
    requires flags < 1024 && IsValid(flags)
    ensures Decode(MakePte(page, flags)) == Some(Mapping(page, flags))
  {
    MakePteParts(page, flags);
  }

  /** x with the one bit of mask set. */
  function WithBit(x: nat, mask: nat): nat
    requires mask > 0
  {
    if x / mask % 2 == 1 then x else x + mask
  }

  /** PTE_R | PTE_U | xperm | PTE_V, the flags of a user page. */
  function UserFlags(xperm: nat): nat {
    WithV(WithBit(WithBit(xperm, PTE_R), PTE_U))
  }

  lemma UserFlagsLeaf(xperm: nat)
    requires xperm < 1024
    ensures UserFlags(xperm) < 1024 && IsValid(UserFlags(xperm)) && UserFlags(xperm) != PTE_V
  {
    WithBitBound(xperm, PTE_R);
    WithBitBound(WithBit(xperm, PTE_R), PTE_U);
  }

  lemma WithBitBound(x: nat, mask: nat)
    requires x < 1024 && (mask == PTE_R || mask == PTE_U)
    ensures x <= WithBit(x, mask) < 1024 && WithBit(x, mask) >= mask
  {
  }

  lemma WithVValid(perm: nat)
    requires perm < 1024
    ensures WithV(perm) < 1024 && IsValid(WithV(perm)) && (WithV(perm) == perm || WithV(perm) == perm + 1)
  {
  }

  /** PTE_R, PTE_W and PTE_X all clear: the entry points to a lower table. */
  predicate IsPointer(pte: nat) { pte % 16 / 2 == 0 }

  // ------------------------------------------------- indices of a page number

  /** PX(2, va), PX(1, va) and PX(0, va) for va in page v. */
  function Px2(v: nat): nat { v / 0x4_0000 % 512 }
  function Px1(v: nat): nat { v / 512 % 512 }
  function Px0(v: nat): nat { v % 512 }

  function Vpn(i: nat, j: nat, k: nat): nat { i * 0x4_0000 + j * 512 + k }

  lemma VpnIndices(v: nat)
    requires v < VPNS
    ensures Px2(v) < 512 && Px1(v) < 512 && Px0(v) < 512 && Vpn(Px2(v), Px1(v), Px0(v)) == v
  {
    var q, k := v / 512, v % 512;
    var i, j := q / 512, q % 512;
    assert v == q * 512 + k && q == i * 512 + j;
    assert v == i * 0x4_0000 + (j * 512 + k) && j * 512 + k < 0x4_0000;
    assert v / 0x4_0000 == i;
  }

  lemma VpnParts(i: nat, j: nat, k: nat)
    requires i < 512 && j < 512 && k < 512
    ensures Vpn(i, j, k) < VPNS && Px2(Vpn(i, j, k)) == i && Px1(Vpn(i, j, k)) == j && Px0(Vpn(i, j, k)) == k
  {
    var v := Vpn(i, j, k);
    assert v == (i * 512 + j) * 512 + k && v == i * 0x4_0000 + (j * 512 + k) && j * 512 + k < 0x4_0000;
    assert v / 512 == i * 512 + j && v % 512 == k && v / 0x4_0000 == i;
  }

  // ------------------------------------------------------------- the tree

  /** A position for a table page: the root, or under one or two root indices. */
  datatype Node = Root | Mid(i: nat) | Low(i: nat, j: nat)

  predicate GoodNode(n: Node) {
    match n
    case Root => true
    case Mid(i) => i < ENTRIES
    case Low(i, j) => i < ENTRIES && j < ENTRIES
  }

  function Follow(mem: Mem, p: nat, i: nat): Option<nat> {
    if p in mem && i < |mem[p]| && IsValid(mem[p][i]) then Some(PtePage(mem[p][i])) else None
  }

  /** The page at a position of the tree rooted at r. */
  function TableAt(mem: Mem, r: nat, n: Node): Option<nat> {
    match n
    case Root => Some(r)
    case Mid(i) => Follow(mem, r, i)
    case Low(i, j) => match Follow(mem, r, i) { case None => None case Some(m) => Follow(mem, m, j) }
  }

  /** The leaf entry for page v, 0 when a table on the way is missing. */
  function Leaf(mem: Mem, r: nat, v: nat): nat {
    match TableAt(mem, r, Low(Px2(v), Px1(v)))
    case None => 0
    case Some(m) => if m in mem && Px0(v) < |mem[m]| then mem[m][Px0(v)] else 0
  }

  function ChildNode(n: Node, i: nat): Node
    requires !n.Low?
  {
    match n
    case Root => Mid(i)
    case Mid(k) => Low(k, i)
  }

  /** Which table pages there are: each sits at one position of one tree. */
  datatype Seat = Seat(root: nat, node: Node)

  ghost predicate Trees(mem: Mem, roots: set<nat>, seats: map<nat, Seat>) {
    && MemOk(mem)
    && (forall r {:trigger seats[r]} :: r in roots ==> r in seats && seats[r] == Seat(r, Root))
    && (forall p {:trigger seats[p]} :: p in seats ==> p in mem && seats[p].root in roots && GoodNode(seats[p].node))
    && (forall p {:trigger seats[p]} :: p in seats ==> TableAt(mem, seats[p].root, seats[p].node) == Some(p))
    && (forall r, n :: r in roots && GoodNode(n) && TableAt(mem, r, n).Some? ==>
          TableAt(mem, r, n).value in seats && seats[TableAt(mem, r, n).value] == Seat(r, n))
    && (forall p, i :: p in seats && !seats[p].node.Low? && 0 <= i < ENTRIES && IsValid(mem[p][i]) ==>
          PteFlags(mem[p][i]) == PTE_V)
  }

  lemma RootSeat(mem: Mem, roots: set<nat>, seats: map<nat, Seat>, r: nat)
    requires Trees(mem, roots, seats) && r in roots
    ensures r in seats && seats[r] == Seat(r, Root) && r in mem && |mem[r]| == ENTRIES
  {
  }

  lemma TableSeat(mem: Mem, roots: set<nat>, seats: map<nat, Seat>, p: nat)
    requires Trees(mem, roots, seats) && p in seats
    ensures p in mem && |mem[p]| == ENTRIES && seats[p].root in roots && GoodNode(seats[p].node)
    ensures TableAt(mem, seats[p].root, seats[p].node) == Some(p)
  {
  }

  lemma SeatAt(mem: Mem, roots: set<nat>, seats: map<nat, Seat>, r: nat, n: Node)
    requires Trees(mem, roots, seats) && r in roots && GoodNode(n) && TableAt(mem, r, n).Some?
    ensures var p := TableAt(mem, r, n).value; p in seats && seats[p] == Seat(r, n) && p in mem && |mem[p]| == ENTRIES
  {
    TableSeat(mem, roots, seats, TableAt(mem, r, n).value);
  }

  // -------------------------------------------------- effects of stores

  /** walk() hangs a zeroed page q under entry i of table p. */
  function Hang(mem: Mem, p: nat, i: nat, q: nat): Mem
    requires p in mem && i < |mem[p]|
  {
    mem[q := ZeroPage()][p := mem[p][i := MakePte(q, PTE_V)]]
  }

  lemma HangTables(mem: Mem, roots: set<nat>, seats: map<nat, Seat>, p: nat, i: nat, q: nat, r: nat, n: Node)
    requires Trees(mem, roots, seats) && p in seats && !seats[p].node.Low? && i < ENTRIES && !IsValid(mem[p][i])
    requires q !in seats && r in roots && GoodNode(n)
    ensures TableAt(Hang(mem, p, i, q), r, n) ==
      if Seat(r, n) == Seat(seats[p].root, ChildNode(seats[p].node, i)) then Some(q) else TableAt(mem, r, n)
  {
    var mem' := Hang(mem, p, i, q);
    MakePteParts(q, PTE_V);
    RootSeat(mem, roots, seats, r);
    match n
    case Root =>
    case Mid(a) =>
    case Low(a, b) =>
      if TableAt(mem, r, Mid(a)).Some? {
        SeatAt(mem, roots, seats, r, Mid(a));
      }
  }

  lemma HangTrees(mem: Mem, roots: set<nat>, seats: map<nat, Seat>, p: nat, i: nat, q: nat)
    requires Trees(mem, roots, seats) && p in seats && !seats[p].node.Low? && i < ENTRIES && !IsValid(mem[p][i])
    requires q !in seats
    ensures Trees(Hang(mem, p, i, q), roots, seats[q := Seat(seats[p].root, ChildNode(seats[p].node, i))])
    ensures forall r, v: nat :: r in roots && v < VPNS ==> Leaf(Hang(mem, p, i, q), r, v) == Leaf(mem, r, v)
  {
    MakePteParts(q, PTE_V);
    forall r, n | r in roots && GoodNode(n)
      ensures TableAt(Hang(mem, p, i, q), r, n) ==
        if Seat(r, n) == Seat(seats[p].root, ChildNode(seats[p].node, i)) then Some(q) else TableAt(mem, r, n)
    {
      HangTables(mem, roots, seats, p, i, q, r, n);
    }
  }

  function Store(mem: Mem, p: nat, i: nat, x: nat): Mem
    requires p in mem && i < |mem[p]|
  {
    var page: seq<nat> := mem[p][i := x];
    mem[p := page]
  }

  /** A store into a lowest-level table leaves every table where it is. */
  lemma StoreTables(mem: Mem, roots: set<nat>, seats: map<nat, Seat>, p: nat, k: nat, x: nat, r: nat, n: Node)
    requires Trees(mem, roots, seats) && p in seats && seats[p].node.Low? && k < ENTRIES
    requires r in roots && GoodNode(n)
    ensures TableAt(Store(mem, p, k, x), r, n) == TableAt(mem, r, n)
  {
    RootSeat(mem, roots, seats, r);
    match n
    case Root =>
    case Mid(a) =>
    case Low(a, b) =>
      if TableAt(mem, r, Mid(a)).Some? {
        SeatAt(mem, roots, seats, r, Mid(a));
      }
  }

  lemma StoreTrees(mem: Mem, roots: set<nat>, seats: map<nat, Seat>, p: nat, k: nat, x: nat)
    requires Trees(mem, roots, seats) && p in seats && seats[p].node.Low? && k < ENTRIES
    ensures Trees(Store(mem, p, k, x), roots, seats)
  {
    var mem' := Store(mem, p, k, x);
    forall r, m | r in roots && GoodNode(m)
      ensures TableAt(mem', r, m) == TableAt(mem, r, m)
    {
      StoreTables(mem, roots, seats, p, k, x, r, m);
    }
    forall q | q in seats
      ensures TableAt(mem', seats[q].root, seats[q].node) == Some(q)
    {
      TableSeat(mem, roots, seats, q);
    }
    forall r | r in roots
      ensures r in seats && seats[r] == Seat(r, Root)
    {
      RootSeat(mem, roots, seats, r);
    }
  }

  /** ... and changes the one translation it is for, in its own address space. */
  lemma StoreLeaf(mem: Mem, roots: set<nat>, seats: map<nat, Seat>, p: nat, k: nat, x: nat, r: nat, v: nat)
    requires Trees(mem, roots, seats) && p in seats && seats[p].node.Low? && k < ENTRIES
    requires r in roots && v < VPNS
    ensures Leaf(Store(mem, p, k, x), r, v) ==
      if r == seats[p].root && v == Vpn(seats[p].node.i, seats[p].node.j, k) then x else Leaf(mem, r, v)
  {
    VpnIndices(v);
    var n := Low(Px2(v), Px1(v));
    TableSeat(mem, roots, seats, p);
    VpnParts(seats[p].node.i, seats[p].node.j, k);
    StoreTables(mem, roots, seats, p, k, x, r, n);
    if TableAt(mem, r, n).Some? {
      SeatAt(mem, roots, seats, r, n);
    }
  }

  /** Pages that are not tables may change freely. */
  lemma ElsewhereTrees(mem: Mem, mem': Mem, roots: set<nat>, seats: map<nat, Seat>)
    requires Trees(mem, roots, seats) && MemOk(mem')
    requires forall p :: p in seats ==> p in mem' && mem'[p] == mem[p]
    ensures Trees(mem', roots, seats)
    ensures forall r, v: nat :: r in roots && v < VPNS ==> Leaf(mem', r, v) == Leaf(mem, r, v)
  {
    forall r, n | r in roots && GoodNode(n)
      ensures TableAt(mem', r, n) == TableAt(mem, r, n)
    {
      SameTables(mem, mem', roots, seats, r, n);
    }
    forall p | p in seats
      ensures p in mem' && seats[p].root in roots && GoodNode(seats[p].node)
      ensures TableAt(mem', seats[p].root, seats[p].node) == Some(p)
    {
      TableSeat(mem, roots, seats, p);
    }
    forall r | r in roots
      ensures r in seats && seats[r] == Seat(r, Root)
    {
      RootSeat(mem, roots, seats, r);
    }
    forall r, v: nat | r in roots && v < VPNS
      ensures Leaf(mem', r, v) == Leaf(mem, r, v)
    {
      VpnIndices(v);
      var n := Low(Px2(v), Px1(v));
      if TableAt(mem, r, n).Some? {
        SeatAt(mem, roots, seats, r, n);
      }
    }
  }

  lemma SameTables(mem: Mem, mem': Mem, roots: set<nat>, seats: map<nat, Seat>, r: nat, n: Node)
    requires Trees(mem, roots, seats) && r in roots && GoodNode(n)
    requires forall p :: p in seats ==> p in mem' && mem'[p] == mem[p]
    ensures TableAt(mem', r, n) == TableAt(mem, r, n)
  {
    RootSeat(mem, roots, seats, r);
    match n
    case Root =>
    case Mid(a) =>
    case Low(a, b) =>
      if TableAt(mem, r, Mid(a)).Some? {
        SeatAt(mem, roots, seats, r, Mid(a));
      }
  }

  /** The lowest-level table for page v, when both levels above it are present. */
  lemma LeafTable(mem: Mem, roots: set<nat>, seats: map<nat, Seat>, r: nat, v: nat, m: nat)
    requires Trees(mem, roots, seats) && r in roots && v < VPNS
    requires TableAt(mem, r, Low(Px2(v), Px1(v))) == Some(m)
    ensures m in seats && seats[m] == Seat(r, Low(Px2(v), Px1(v))) && m in mem && |mem[m]| == ENTRIES
    ensures Px0(v) < ENTRIES && Leaf(mem, r, v) == mem[m][Px0(v)]
  {
    VpnIndices(v);
    assert GoodNode(Low(Px2(v), Px1(v)));
  }

  // -------------------------------------------- whole trees coming and going

  /** A zeroed page as the root of a new, empty tree. */
  lemma NewRootTrees(mem: Mem, roots: set<nat>, seats: map<nat, Seat>, q: nat)
    requires Trees(mem, roots, seats) && q !in seats && q in mem && mem[q] == ZeroPage()
    ensures Trees(mem, roots + {q}, seats[q := Seat(q, Root)])
    ensures forall v: nat :: v < VPNS ==> Leaf(mem, q, v) == 0
  {
    var seats' := seats[q := Seat(q, Root)];
    forall r, n | r in roots && GoodNode(n) && TableAt(mem, r, n).Some?
      ensures TableAt(mem, r, n).value in seats' && seats'[TableAt(mem, r, n).value] == Seat(r, n)
    {
      SeatAt(mem, roots, seats, r, n);
    }
    forall r | r in roots
      ensures r in seats && seats[r] == Seat(r, Root)
    {
      RootSeat(mem, roots, seats, r);
    }
    forall p | p in seats
      ensures p in mem && seats[p].root in roots && GoodNode(seats[p].node)
      ensures TableAt(mem, seats[p].root, seats[p].node) == Some(p)
    {
      TableSeat(mem, roots, seats, p);
    }
  }

  /** The table pages of one tree. */
  ghost function TreeOf(seats: map<nat, Seat>, r: nat): map<nat, Node> {
    map p | p in seats && seats[p].root == r :: seats[p].node
  }

  ghost function WithoutTree(seats: map<nat, Seat>, r: nat): map<nat, Seat> {
    map p | p in seats && seats[p].root != r :: seats[p]
  }

  /** Dropping one tree leaves the others whole. */
  lemma DropTrees(mem: Mem, roots: set<nat>, seats: map<nat, Seat>, r0: nat)
    requires Trees(mem, roots, seats)
    ensures Trees(mem, roots - {r0}, WithoutTree(seats, r0))
  {
    var seats' := WithoutTree(seats, r0);
    forall r | r in roots - {r0}
      ensures r in seats' && seats'[r] == Seat(r, Root)
    {
      RootSeat(mem, roots, seats, r);
    }
    forall p | p in seats'
      ensures p in mem && seats'[p].root in roots - {r0} && GoodNode(seats'[p].node)
      ensures TableAt(mem, seats'[p].root, seats'[p].node) == Some(p)
    {
      TableSeat(mem, roots, seats, p);
    }
    forall r, n | r in roots - {r0} && GoodNode(n) && TableAt(mem, r, n).Some?
      ensures TableAt(mem, r, n).value in seats' && seats'[TableAt(mem, r, n).value] == Seat(r, n)
    {
      SeatAt(mem, roots, seats, r, n);
    }
  }

  /** A tree in memory, by itself: valid entries of upper tables lead to its pages. */
  ghost predicate Whole(mem: Mem, tree: map<nat, Node>) {
    && (forall p :: p in tree ==> p in mem && |mem[p]| == ENTRIES && GoodNode(tree[p]))
    && (forall p, i :: p in tree && !tree[p].Low? && 0 <= i < ENTRIES && IsValid(mem[p][i]) ==>
          && IsPointer(mem[p][i]) && PtePage(mem[p][i]) in tree
          && tree[PtePage(mem[p][i])] == ChildNode(tree[p], i))
    && (forall p, i :: p in tree && tree[p].Low? && 0 <= i < ENTRIES ==> !IsValid(mem[p][i]))
    && (forall p, q :: p in tree && q in tree && tree[p] == tree[q] ==> p == q)
    && (forall q :: q in tree && !tree[q].Root? ==> exists p :: p in tree && IsParent(mem, tree, p, q))
  }

  /** Table p holds a valid entry for table q. */
  ghost predicate IsParent(mem: Mem, tree: map<nat, Node>, p: nat, q: nat)
    requires p in tree && q in tree
  {
    && !tree[q].Root? && tree[p] == ParentNode(tree[q])
    && p in mem && LastIndex(tree[q]) < |mem[p]| && IsValid(mem[p][LastIndex(tree[q])])
  }

  function ParentNode(n: Node): Node
    requires !n.Root?
  {
    if n.Mid? then Root else Mid(n.i)
  }

  function LastIndex(n: Node): nat
    requires !n.Root?
  {
    if n.Mid? then n.i else n.j
  }

  /** b is a or lies below it. */
  predicate Below(a: Node, b: Node) {
    a == b || a.Root? || (a.Mid? && b.Low? && b.i == a.i)
  }

  ghost function Subtree(tree: map<nat, Node>, n: Node): set<nat> {
    set p | p in tree && Below(n, tree[p])
  }

  /** Which entry of the table at a leads down to b. */
  function BranchIndex(a: Node, b: Node): nat
    requires Below(a, b) && a != b
  {
    if a.Root? then b.i else b.j
  }

  /** The subtrees under entries below i of the table at n. */
  ghost function Branches(tree: map<nat, Node>, n: Node, i: nat): set<nat> {
    set p | p in tree && Below(n, tree[p]) && n != tree[p] && BranchIndex(n, tree[p]) < i
  }

  lemma BranchNext(tree: map<nat, Node>, n: Node, i: nat)
    requires !n.Low?
    ensures Branches(tree, n, i + 1) == Branches(tree, n, i) + Subtree(tree, ChildNode(n, i))
    ensures Branches(tree, n, i) !! Subtree(tree, ChildNode(n, i))
  {
  }

  lemma BranchesLow(tree: map<nat, Node>, n: Node, i: nat)
    requires n.Low?
    ensures Branches(tree, n, i) == {}
  {
  }

  lemma BranchesAll(mem: Mem, tree: map<nat, Node>, p: nat)
    requires Whole(mem, tree) && p in tree
    ensures Subtree(tree, tree[p]) == Branches(tree, tree[p], ENTRIES) + {p}
    ensures p !in Branches(tree, tree[p], ENTRIES)
  {
    forall q | q in Subtree(tree, tree[p]) && q != p
      ensures q in Branches(tree, tree[p], ENTRIES)
    {
      assert tree[q] != tree[p] && GoodNode(tree[q]);
    }
  }

  /** Nothing hangs under an entry that is not valid. */
  lemma BareEntry(mem: Mem, tree: map<nat, Node>, p: nat, i: nat)
    requires Whole(mem, tree) && p in tree && !tree[p].Low? && i < ENTRIES && !IsValid(mem[p][i])
    ensures Subtree(tree, ChildNode(tree[p], i)) == {}
  {
    var c := ChildNode(tree[p], i);
    assert forall q :: q in tree ==> tree[q] != c;
    assert forall q :: q in tree ==> !Below(c, tree[q]);
  }

  lemma PointerFlags(pte: nat)
    requires IsValid(pte) && PteFlags(pte) == PTE_V
    ensures IsPointer(pte)
  {
    assert pte == pte / 1024 * 1024 + 1;
  }

  /** A tree of a well-kept system with no leaves left stands by itself. */
  lemma TreeIsWhole(mem: Mem, roots: set<nat>, seats: map<nat, Seat>, r: nat)
    requires Trees(mem, roots, seats) && r in roots
    requires forall v: nat :: v < VPNS ==> !IsValid(Leaf(mem, r, v))
    ensures Whole(mem, TreeOf(seats, r)) && r in TreeOf(seats, r) && TreeOf(seats, r)[r] == Root
  {
    var tree := TreeOf(seats, r);
    RootSeat(mem, roots, seats, r);
    forall p | p in tree
      ensures p in mem && |mem[p]| == ENTRIES && GoodNode(tree[p]) && TableAt(mem, r, tree[p]) == Some(p)
    {
      TableSeat(mem, roots, seats, p);
    }
    forall p, i | p in tree && !tree[p].Low? && 0 <= i < ENTRIES && IsValid(mem[p][i])
      ensures IsPointer(mem[p][i]) && PtePage(mem[p][i]) in tree && tree[PtePage(mem[p][i])] == ChildNode(tree[p], i)
    {
      PointerFlags(mem[p][i]);
      SeatAt(mem, roots, seats, r, ChildNode(tree[p], i));
    }
    forall p, i | p in tree && tree[p].Low? && 0 <= i < ENTRIES
      ensures !IsValid(mem[p][i])
    {
      var v := Vpn(tree[p].i, tree[p].j, i);
      VpnParts(tree[p].i, tree[p].j, i);
      LeafTable(mem, roots, seats, r, v, p);
    }
    forall q | q in tree && !tree[q].Root?
      ensures exists p :: p in tree && IsParent(mem, tree, p, q)
    {
      ParentPresent(mem, roots, seats, r, q);
    }
  }

  lemma ParentPresent(mem: Mem, roots: set<nat>, seats: map<nat, Seat>, r: nat, q: nat)
    requires Trees(mem, roots, seats) && r in roots && q in seats && seats[q].root == r && !seats[q].node.Root?
    ensures exists p :: p in TreeOf(seats, r) && IsParent(mem, TreeOf(seats, r), p, q)
  {
    var tree := TreeOf(seats, r);
    TableSeat(mem, roots, seats, q);
    RootSeat(mem, roots, seats, r);
    if tree[q].Mid? {
      assert IsParent(mem, tree, r, q);
    } else {
      SeatAt(mem, roots, seats, r, Mid(tree[q].i));
      var p := TableAt(mem, r, Mid(tree[q].i)).value;
      assert IsParent(mem, tree, p, q);
    }
  }
}
