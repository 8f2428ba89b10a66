/** Symbolic links: what sys_symlink stores, how sys_open follows links, and the inode
    references, inode locks and transaction each call holds along the way. */
module Symlink {
  import opened Common
  import opened Blocks

  const MAXDEPTH: nat := 9
  const MAXPATH: nat := 128
  const NDEV: nat := 10

  datatype Kind = Dir | File | Device | Link
  datatype Node = Node(kind: Kind, major: int, content: seq<Byte>)

  type Path = seq<Byte>
  type Names = map<Path, nat>      // what namei finds, by path
  type Nodes = map<nat, Node>

  // ------------------------------------------------- the stored target

  /** A C string of at most MAXPATH bytes with its terminator. */
  predicate CString(p: Path) { |p| < MAXPATH && 0 !in p }

  /** The bytes up to the first terminator. */
  function UpToNul(s: seq<Byte>): Path {
    if s == [] || s[0] == 0 then [] else [s[0]] + UpToNul(s[1..])
  }

  function Encode32(n: nat): seq<Byte>
    requires n < WORD_LIMIT
  {
    SplitWord(n);
    [n % 256, n / 256 % 256, n / 65536 % 256, n / 16777216]
  }

  function Decode32(s: seq<Byte>): nat
    requires |s| == 4
  {
    var b0: int, b1: int, b2: int, b3: int := s[0], s[1], s[2], s[3];
    b0 + 256 * b1 + 65536 * b2 + 16777216 * b3
  }

  /** writei's effect on contents, at an offset not past the end. */
  function Overlay(c: seq<Byte>, off: nat, s: seq<Byte>): (r: seq<Byte>)
    requires off <= |c|
    ensures |r| == if off + |s| <= |c| then |c| else off + |s|
    ensures r[off..off + |s|] == s && r[..off] == c[..off]
  {
    c[..off] + s + (if off + |s| <= |c| then c[off + |s|..] else [])
  }

  /** What sys_symlink leaves in an inode that held c. */
  function Stored(c: seq<Byte>, target: Path): seq<Byte>
    requires CString(target)
  {
    Overlay(Overlay(c, 0, Encode32(|target|)), 4, target + [0])
  }

  /** The contents hold a length, that many bytes, and a terminator. */
  predicate Complete(c: seq<Byte>) {
    |c| >= 4 && Decode32(c[..4]) < INT_MAX && 4 + Decode32(c[..4]) < |c| && c[4 + Decode32(c[..4])] == 0
  }

  /** The path a complete link names. */
  function Target(c: seq<Byte>): Path
    requires Complete(c)
  {
    UpToNul(c[4..4 + Decode32(c[..4]) + 1])
  }

  const INT_MAX: nat := 0x7fff_ffff

  /** What sys_open's stack holds where a read falls short: the four bytes of `length`, and the memory
      from the end of what was read into `target` on. */
  datatype Stack = Stack(length: seq<Byte>, rest: seq<Byte>)

  predicate GoodStack(k: Stack) { |k.length| == 4 }

  function Shorter(a: nat, b: nat): nat { if a <= b then a else b }

  /** The path sys_open reads out of a link with contents c, complete or not. A length that is negative
      or INT_MAX gives no array at all; then the path is whatever the memory holds. */
  function PathRead(c: seq<Byte>, k: Stack): Path
    requires GoodStack(k)
  {
    var got := Shorter(|c|, 4);
    var length := Decode32(c[..got] + k.length[got..]);
    UpToNul((if |c| <= 4 || length >= INT_MAX then [] else c[4..Shorter(|c|, 4 + length + 1)]) + k.rest)
  }

  lemma {:induction false} UpToNulEnds(a: seq<Byte>, b: seq<Byte>)
    requires 0 in a
    ensures UpToNul(a + b) == UpToNul(a)
  {
    if a[0] != 0 {
      assert (a + b)[1..] == a[1..] + b;
      UpToNulEnds(a[1..], b);
    }
  }

  /** Of a complete link the stack plays no part. */
  lemma CompleteRead(c: seq<Byte>, k: Stack)
    requires Complete(c) && GoodStack(k)
    ensures PathRead(c, k) == Target(c)
  {
    var n := Decode32(c[..4]);
    assert c[..4] + k.length[4..] == c[..4];
    var a := c[4..4 + n + 1];
    assert a[n] == 0;
    UpToNulEnds(a, k.rest);
  }

  /** What the two writes leave of contents c, when they manage w1 and w2 bytes. */
  function Written(c: seq<Byte>, target: Path, w1: nat, w2: nat): seq<Byte>
    requires CString(target) && w1 <= 4 && w2 <= |target| + 1
  {
    var once := Overlay(c, 0, Encode32(|target|)[..w1]);
    if w1 < 4 then once else Overlay(once, 4, (target + [0])[..w2])
  }

  lemma WrittenWhole(c: seq<Byte>, target: Path)
    requires CString(target)
    ensures Written(c, target, 4, |target| + 1) == Stored(c, target)
  {
    assert Encode32(|target|)[..4] == Encode32(|target|);
    assert (target + [0])[..|target| + 1] == target + [0];
  }

  /** In a new inode only the whole of both writes makes a complete link. */
  lemma NewLinkComplete(target: Path, w1: nat, w2: nat)
    requires CString(target) && w1 <= 4 && w2 <= |target| + 1
    ensures Complete(Written([], target, w1, w2)) <==> w1 == 4 && w2 == |target| + 1
  {
    var c := Written([], target, w1, w2);
    if w1 == 4 {
      SplitWord(|target|);
      var once := Overlay([], 0, Encode32(|target|)[..4]);
      assert once == Encode32(|target|) && c[..4] == once[..4] == once;
      assert Decode32(c[..4]) == |target|;
      if w2 == |target| + 1 {
        WrittenWhole([], target);
        TargetReadBack([], target);
      }
    }
  }

  lemma {:induction false} UpToNulWhole(p: Path)
    requires 0 !in p
    ensures UpToNul(p + [0]) == p
  {
    if p == [] {
      assert (p + [0])[0] == 0;
    } else {
      assert (p + [0])[1..] == p[1..] + [0];
      assert 0 !in p[1..];
      UpToNulWhole(p[1..]);
    }
  }

  /** Whatever the inode held before, open reads back exactly the target that symlink stored. */
  lemma TargetReadBack(c: seq<Byte>, target: Path)
    requires CString(target)
    ensures Complete(Stored(c, target)) && Target(Stored(c, target)) == target
  {
    var once := Overlay(c, 0, Encode32(|target|));
    var s := Stored(c, target);
    SplitWord(|target|);
    assert s[..4] == once[..4] == Encode32(|target|);
    assert s[4..4 + |target| + 1] == target + [0];
    assert s[4 + |target|] == (s[4..4 + |target| + 1])[|target|] == 0;
    UpToNulWhole(target);
  }

  // --------------------------------------------------- following links

  predicate IsLink(nodes: Nodes, ip: nat) { ip in nodes && nodes[ip].kind == Link }

  /** Every name leads to an inode. */
  ghost predicate Resolves(names: Names, nodes: Nodes) {
    forall p :: p in names ==> names[p] in nodes
  }

  /** Every link's contents are complete. */
  ghost predicate Sound(nodes: Nodes) {
    forall i :: i in nodes && nodes[i].kind == Link ==> Complete(nodes[i].content)
  }

  /** The inode one link leads to. */
  function Next(names: Names, nodes: Nodes, ip: nat): Option<nat> {
    if IsLink(nodes, ip) && Complete(nodes[ip].content) && Target(nodes[ip].content) in names
    then Some(names[Target(nodes[ip].content)]) else None
  }

  /** x is reached from ip by following exactly d links. */
  predicate Reaches(names: Names, nodes: Nodes, ip: nat, d: nat, x: nat)
    decreases d
  {
    if d == 0 then ip == x
    else IsLink(nodes, ip) && Next(names, nodes, ip).Some? && Reaches(names, nodes, Next(names, nodes, ip).value, d - 1,
                                                                      x)
  }

  /** What opening should give: the first inode on the way that is no link, at most MAXDEPTH links away. */
  ghost predicate Opens(names: Names, nodes: Nodes, ip: nat, x: nat) {
    !IsLink(nodes, x) && exists d: nat :: d <= MAXDEPTH && Reaches(names, nodes, ip, d, x)
  }

  lemma {:induction false} ReachesMore(names: Names, nodes: Nodes, ip: nat, d: nat, x: nat, y: nat)
    requires Reaches(names, nodes, ip, d, x) && IsLink(nodes, x) && Next(names, nodes, x) == Some(y)
    ensures Reaches(names, nodes, ip, d + 1, y)
    decreases d
  {
    if d == 0 {
      assert Reaches(names, nodes, y, 0, y);
    } else {
      ReachesMore(names, nodes, Next(names, nodes, ip).value, d - 1, x, y);
    }
  }

  /** Following is deterministic: at most one inode is d links away, and the way there passes only links. */
  lemma {:induction false} ReachesOne(names: Names, nodes: Nodes, ip: nat, d: nat, x: nat, e: nat, y: nat)
    requires Reaches(names, nodes, ip, d, x) && Reaches(names, nodes, ip, e, y) && d <= e
    ensures Reaches(names, nodes, x, e - d, y)
    ensures !IsLink(nodes, x) ==> x == y && d == e
    decreases d
  {
    if d > 0 {
      ReachesOne(names, nodes, Next(names, nodes, ip).value, d - 1, x, e - 1, y);
    }
  }

  /** A link sys_symlink completed leads where its target names. */
  lemma LinkLeads(names: Names, nodes: Nodes, ip: nat, c: seq<Byte>, target: Path)
    requires CString(target) && IsLink(nodes, ip) && nodes[ip].content == Stored(c, target)
    ensures Next(names, nodes, ip) == if target in names then Some(names[target]) else None
  {
    TargetReadBack(c, target);
  }

  /** A chain that comes back to itself opens nothing. */
  lemma CycleOpensNothing(names: Names, nodes: Nodes, ip: nat, d: nat, x: nat, k: nat, y: nat)
    requires Reaches(names, nodes, ip, d, x) && k > 0 && Reaches(names, nodes, x, k, x)
    ensures !Opens(names, nodes, ip, y)
  {
    forall e: nat | Reaches(names, nodes, ip, e, y)
      ensures IsLink(nodes, y)
    {
      if e <= d {
        ReachesOne(names, nodes, ip, e, y, d, x);
      } else {
        ReachesOne(names, nodes, ip, d, x, e, y);
        Around(names, nodes, x, k, e - d, y);
      }
    }
  }

  /** Everything on a cycle is a link. */
  lemma {:induction false} Around(names: Names, nodes: Nodes, x: nat, k: nat, e: nat, y: nat)
    requires k > 0 && Reaches(names, nodes, x, k, x) && Reaches(names, nodes, x, e, y)
    ensures IsLink(nodes, y)
    decreases e
  {
    if e > k {
      ReachesOne(names, nodes, x, k, x, e, y);
      Around(names, nodes, x, k, e - k, y);
    } else if e == k {
      ReachesOne(names, nodes, x, k, x, e, y);
    } else {
      ReachesOne(names, nodes, x, e, y, k, x);
    }
  }

  /** More than MAXDEPTH links in a row open nothing. */
  lemma LongChainOpensNothing(names: Names, nodes: Nodes, ip: nat, d: nat, x: nat, y: nat)
    requires d > MAXDEPTH && Reaches(names, nodes, ip, d, x)
    ensures !Opens(names, nodes, ip, y)
  {
    forall e: nat | e <= MAXDEPTH && Reaches(names, nodes, ip, e, y)
      ensures IsLink(nodes, y)
    {
      ReachesOne(names, nodes, ip, e, y, d, x);
    }
  }

  /** The inode one link leads to, whatever its contents. */
  function Hopped(names: Names, nodes: Nodes, ip: nat, k: Stack): Option<nat>
    requires GoodStack(k)
  {
    if IsLink(nodes, ip) && PathRead(nodes[ip].content, k) in names
    then Some(names[PathRead(nodes[ip].content, k)]) else None
  }

  /** What the stack held at each reading of a link. */
  ghost predicate Stacks(ks: seq<Stack>) {
    |ks| == MAXDEPTH && forall i :: 0 <= i < |ks| ==> GoodStack(ks[i])
  }

  /** Where following links from ip ends, the first d being behind: no more than MAXDEPTH are followed. */
  ghost function Walk(names: Names, nodes: Nodes, ip: nat, ks: seq<Stack>, d: nat): Option<nat>
    requires Stacks(ks) && d <= MAXDEPTH
    decreases MAXDEPTH - d
  {
    if !IsLink(nodes, ip) then Some(ip)
    else if d == MAXDEPTH || Hopped(names, nodes, ip, ks[d]) == None then None
    else Walk(names, nodes, Hopped(names, nodes, ip, ks[d]).value, ks, d + 1)
  }

  /** Where every link is complete, following ends at the inode that opening should give. */
  lemma {:induction false} WalkOpens(names: Names, nodes: Nodes, start: nat, ip: nat, ks: seq<Stack>, d: nat, x: nat)
    requires Stacks(ks) && Sound(nodes) && d <= MAXDEPTH && Reaches(names, nodes, start, d, ip)
    ensures Walk(names, nodes, ip, ks, d) == Some(x) <==> Opens(names, nodes, start, x)
    decreases MAXDEPTH - d
  {
    if !IsLink(nodes, ip) {
      Arrived(names, nodes, start, d, ip);
      OneOpens(names, nodes, start, ip);
    } else {
      if d == MAXDEPTH {
        TooDeep(names, nodes, start, ip);
        return;
      }
      CompleteRead(nodes[ip].content, ks[d]);
      assert Hopped(names, nodes, ip, ks[d]) == Next(names, nodes, ip);
      if Next(names, nodes, ip) == None {
        Dangling(names, nodes, start, d, ip);
      } else {
        var next := Next(names, nodes, ip).value;
        ReachesMore(names, nodes, start, d, ip, next);
        WalkOpens(names, nodes, start, next, ks, d + 1, x);
      }
    }
  }

  // --------------------------------------------------------- the calls

  /** open's flags: O_WRONLY, O_RDWR, O_CREATE, O_TRUNC, O_NOFOLLOW. */
  datatype Mode = Mode(wronly: bool, rdwr: bool, create: bool, trunc: bool, nofollow: bool)

  /** What the rest of the kernel grants during a call: the directory a path ends in, a new inode, the
      entries in it and for it, a file and a descriptor. A new entry is also found by other spellings
      of its path, and a new directory's ".." by those in `up`. `left` is what namei finds once a target
      has been written over a directory's entries. */
  datatype Luck = Luck(parent: Option<nat>, newIno: nat, ialloc: bool, dots: bool, dirlink: bool, file: bool, fd: bool,
                       aliases: set<Path>, up: set<Path>, left: Names)

  predicate Granted(nodes: Nodes, luck: Luck) {
    luck.newIno !in nodes && (luck.parent.Some? ==> luck.parent.value in nodes)
  }

  /** The names once inode ip is entered at path. */
  function Entered(names: Names, path: Path, ip: nat, dp: nat, kind: Kind, luck: Luck): Names {
    map p |
      && p in names.Keys + luck.aliases + luck.up + {path}
      && (p in names || p == path || p in luck.aliases || kind == Dir) ::
        if p == path || p in luck.aliases then ip else if p in luck.up && kind == Dir then dp else names[p]
  }

  datatype OpenFile = OpenFile(ip: nat, device: bool, readable: bool, writable: bool)

  const ROOT: Path := [47]   // "/"

  const READ_ONLY: Mode := Mode(false, false, false, false, false)

  /** Directories open for reading only. */
  predicate Allowed(nodes: Nodes, ip: nat, mode: Mode) { ip in nodes && (nodes[ip].kind == Dir ==> mode == READ_ONLY) }

  predicate IsDevice(nodes: Nodes, ip: nat) { ip in nodes && nodes[ip].kind == Device }

  predicate BadDevice(nodes: Nodes, ip: nat) {
    ip in nodes && nodes[ip].kind == Device && (nodes[ip].major < 0 || nodes[ip].major >= NDEV)
  }

  /** The inode a path leads to at first, if any, and the names and inodes after looking it up. */
  datatype Start = Start(ip: Option<nat>, names: Names, nodes: Nodes)

  /** What create should do: hand out an existing inode of a fitting kind, or link a new one, or nothing at all. */
  function Created(names: Names, nodes: Nodes, path: Path, kind: Kind, major: int, luck: Luck): Start {
    if luck.parent == None then Start(None, names, nodes)
    else if path in names then Start(if Reusable(nodes, names[path], kind) then Some(names[path]) else None, names,
                                     nodes)
    else if luck.ialloc && (kind == Dir ==> luck.dots) && luck.dirlink
    then Start(Some(luck.newIno), Entered(names, path, luck.newIno, luck.parent.value, kind, luck),
               nodes[luck.newIno := Node(kind, major, [])])
    else Start(None, names, nodes)
  }

  lemma EnteredResolves(names: Names, nodes: Nodes, path: Path, kind: Kind, major: int, luck: Luck)
    requires Resolves(names, nodes) && Granted(nodes, luck) && luck.parent.Some?
    ensures Resolves(Entered(names, path, luck.newIno, luck.parent.value, kind, luck),
                     nodes[luck.newIno := Node(kind, major, [])])
  {
  }

  /** Which existing inodes a create of some kind may return. */
  predicate Reusable(nodes: Nodes, ip: nat, kind: Kind) {
    kind == Link || (kind == File && ip in nodes && (nodes[ip].kind == File || nodes[ip].kind == Device))
  }

  /** Where sys_open starts. */
  function Lookup(names: Names, nodes: Nodes, path: Option<Path>, mode: Mode, luck: Luck): Start {
    if path == None then Start(None, names, nodes)
    else if mode.create then Created(names, nodes, path.value, File, 0, luck)
    else if path.value in names && Allowed(nodes, names[path.value], mode) then Start(Some(names[path.value]), names,
                                                                                      nodes)
    else Start(None, names, nodes)
  }

  /** O_TRUNC empties a regular file that was opened, and nothing else. */
  function Emptied(nodes: Nodes, mode: Mode, fd: int, files: seq<OpenFile>): Nodes {
    if 0 <= fd < |files| && mode.trunc && files[fd].ip in nodes && nodes[files[fd].ip].kind == File
    then nodes[files[fd].ip := nodes[files[fd].ip].(content := [])] else nodes
  }

  /** The writes went to a directory: create hands out whatever inode has the name. */
  predicate Scribbled(at: Start, w1: nat) {
    at.ip.Some? && at.ip.value in at.nodes && at.nodes[at.ip.value].kind == Dir && w1 > 0
  }

  /** Entry i of a directory: the inode number and the name. */
  function Dirent(c: seq<Byte>, i: nat): (nat, Path)
    requires 16 * i + 16 <= |c|
  {
    var b0: int, b1: int := c[16 * i], c[16 * i + 1];
    (b0 + 256 * b1, UpToNul(c[16 * i + 2..16 * i + 16]))
  }

  /** A link made over a directory takes its first entry's name: "." is no longer found there. */
  lemma DotLost(c: seq<Byte>, target: Path)
    requires CString(target) && |c| >= 16
    ensures |Stored(c, target)| >= 16 && Dirent(Stored(c, target), 0) == (|target|, [])
  {
    var once := Overlay(c, 0, Encode32(|target|));
    var s := Stored(c, target);
    assert s[..4] == once[..4] == Encode32(|target|);
    assert s[2] == s[..4][2] == 0 && s[2..16][0] == 0;
    assert s[0] == s[..4][0] == |target| && s[1] == s[..4][1] == 0;
  }

  /** Entries past the end of the target stay. */
  lemma DirentKept(c: seq<Byte>, target: Path, i: nat)
    requires CString(target) && 16 * i + 16 <= |c| && 5 + |target| <= 16 * i
    ensures 16 * i + 16 <= |Stored(c, target)| && Dirent(Stored(c, target), i) == Dirent(c, i)
  {
    var s := Stored(c, target);
    forall j | 5 + |target| <= j < |c|
      ensures j < |s| && s[j] == c[j]
    {
      OverlayPast(c, 0, Encode32(|target|), j);
      OverlayPast(Overlay(c, 0, Encode32(|target|)), 4, target + [0], j);
    }
    assert s[16 * i + 2..16 * i + 16] == c[16 * i + 2..16 * i + 16];
  }

  lemma OverlayPast(c: seq<Byte>, off: nat, s: seq<Byte>, j: nat)
    requires off <= |c| && off + |s| <= j < |c|
    ensures Overlay(c, off, s)[j] == c[j]
  {
  }

  /** sys_symlink's effect: 0 exactly when create and both writes succeed. The inode at path then holds
      the target; otherwise what little was written. Every link is still complete exactly when that
      inode is no link or was left complete. No other inode changes. The names are those create leaves,
      unless the writes went over the entries of a directory. */
  ghost predicate LinkMade(names: Names, nodes: Nodes, names': Names, nodes': Nodes, target: Path, path: Path,
                           luck: Luck, w1: nat, w2: nat, r: int)
    requires CString(target) && w1 <= 4 && w2 <= |target| + 1
  {
    var at := Created(names, nodes, path, Link, 0, luck);
    && names' == (if Scribbled(at, w1) then luck.left else at.names)
    && (!Scribbled(at, w1) ==> Resolves(names', nodes') && (at.ip.Some? ==> Named(names', at.nodes, path, at.ip)))
    && r == (if at.ip.Some? && w1 == 4 && w2 == |target| + 1 then 0 else -1)
    && nodes' == WithTarget(at.nodes, at.ip, target, w1, w2)
    && (Sound(nodes) ==> (Sound(nodes') <==> LeftComplete(at.nodes, at.ip, target, w1, w2)))
  }

  /** sys_symlink at the path of a directory returns 0 and takes the name of its first entry, which is ".". */
  lemma DirectoryOverwritten(names: Names, nodes: Nodes, names': Names, nodes': Nodes, target: Path, path: Path,
                             luck: Luck, r: int)
    requires CString(target) && luck.parent.Some? && path in names && names[path] in nodes
    requires nodes[names[path]].kind == Dir && |nodes[names[path]].content| >= 16
    requires LinkMade(names, nodes, names', nodes', target, path, luck, 4, |target| + 1, r)
    ensures r == 0 && names[path] in nodes' && nodes'[names[path]].kind == Dir && names' == luck.left
    ensures |nodes'[names[path]].content| >= 16 && Dirent(nodes'[names[path]].content, 0) == (|target|, [])
  {
    var c := nodes[names[path]].content;
    WrittenWhole(c, target);
    DotLost(c, target);
  }

  function WithTarget(nodes: Nodes, ip: Option<nat>, target: Path, w1: nat, w2: nat): Nodes
    requires CString(target) && w1 <= 4 && w2 <= |target| + 1
  {
    if ip.Some? && ip.value in nodes
    then nodes[ip.value := nodes[ip.value].(content := Written(nodes[ip.value].content, target, w1, w2))] else nodes
  }

  /** The inode written to, if any, is no link or was left complete. */
  predicate LeftComplete(nodes: Nodes, ip: Option<nat>, target: Path, w1: nat, w2: nat)
    requires CString(target) && w1 <= 4 && w2 <= |target| + 1
  {
    ip.Some? && ip.value in nodes && nodes[ip.value].kind == Link ==>
      Complete(Written(nodes[ip.value].content, target, w1, w2))
  }

  /** A link at a new path is whole, and the file system sound, exactly when the call returns 0. */
  lemma NewLinkSound(names: Names, nodes: Nodes, names': Names, nodes': Nodes, target: Path, path: Path, luck: Luck,
                     w1: nat, w2: nat, r: int)
    requires CString(target) && w1 <= 4 && w2 <= |target| + 1 && Sound(nodes) && Granted(nodes, luck)
    requires LinkMade(names, nodes, names', nodes', target, path, luck, w1, w2, r)
    requires luck.parent.Some? && path !in names && luck.ialloc && luck.dirlink
    ensures Sound(nodes') <==> r == 0
  {
    NewLinkComplete(target, w1, w2);
  }

  /** The path names inode ip. */
  predicate Named(names: Names, nodes: Nodes, path: Path, ip: Option<nat>) {
    ip.Some? && path in names && names[path] == ip.value && ip.value in nodes
  }

  /** Only the inode written to can be an incomplete link. */
  lemma LinkSound(names: Names, nodes: Nodes, at: Start, nodes': Nodes, path: Path, luck: Luck, target: Path, w1: nat,
                  w2: nat, r: int)
    requires CString(target) && w1 <= 4 && w2 <= |target| + 1 && Resolves(names, nodes) && Granted(nodes, luck)
    requires
      && at == Created(names, nodes, path, Link, 0, luck) && at.ip.Some?
      && nodes' == WithTarget(at.nodes, at.ip, target, w1, w2)
    requires r == if w1 == 4 && w2 == |target| + 1 then 0 else -1
    ensures LinkMade(names, nodes, if Scribbled(at, w1) then luck.left else at.names, nodes', target, path, luck,
                     w1, w2, r)
  {
    CreatedResolves(names, nodes, at, path, Link, 0, luck);
    WrittenSound(nodes, at.nodes, at.ip.value, nodes', target, w1, w2);
  }

  /** create came to nothing, and so did the call. */
  lemma NoLink(names: Names, nodes: Nodes, at: Start, path: Path, luck: Luck, target: Path, w1: nat, w2: nat)
    requires CString(target) && w1 <= 4 && w2 <= |target| + 1 && Resolves(names, nodes) && Granted(nodes, luck)
    requires at == Created(names, nodes, path, Link, 0, luck) && at.ip == None
    ensures LinkMade(names, nodes, at.names, at.nodes, target, path, luck, w1, w2, -1)
  {
  }

  lemma CreatedResolves(names: Names, nodes: Nodes, at: Start, path: Path, kind: Kind, major: int, luck: Luck)
    requires Resolves(names, nodes) && Granted(nodes, luck) && at == Created(names, nodes, path, kind, major, luck)
    ensures Resolves(at.names, at.nodes) && (at.ip.Some? ==> Named(at.names, at.nodes, path, at.ip))
    ensures at.ip.Some? ==> forall i :: i in at.nodes && i != at.ip.value ==> i in nodes && at.nodes[i] == nodes[i]
    ensures forall i :: i in nodes ==> i in at.nodes && at.nodes[i] == nodes[i]
  {
    if luck.parent.Some? {
      EnteredResolves(names, nodes, path, kind, major, luck);
    }
  }

  lemma WrittenSound(nodes: Nodes, mid: Nodes, ip: nat, nodes': Nodes, target: Path, w1: nat, w2: nat)
    requires CString(target) && w1 <= 4 && w2 <= |target| + 1 && ip in mid
    requires nodes' == WithTarget(mid, Some(ip), target, w1, w2)
    requires forall i :: i in mid && i != ip ==> i in nodes && mid[i] == nodes[i]
    ensures Sound(nodes) ==> (Sound(nodes') <==> LeftComplete(mid, Some(ip), target, w1, w2))
  {
    assert nodes'[ip] == mid[ip].(content := Written(mid[ip].content, target, w1, w2));
    forall i | i in nodes' && i != ip
      ensures i in nodes && nodes'[i] == nodes[i]
    {
      assert i in mid && nodes'[i] == mid[i];
    }
  }

  /** The inode a call opens, if any. */
  ghost function Meant(names: Names, nodes: Nodes, start: nat, mode: Mode, ks: seq<Stack>): Option<nat>
    requires Stacks(ks)
  {
    if mode.nofollow then Some(start) else Walk(names, nodes, start, ks, 0)
  }

  /** A call succeeds exactly when there is an inode to open, it is no bad device, and a file and
      a descriptor are to be had; then it opens that inode. */
  ghost predicate Opened(names: Names, nodes: Nodes, start: nat, mode: Mode, luck: Luck, ks: seq<Stack>, fd: int,
                         files: seq<OpenFile>)
    requires Stacks(ks)
  {
    var x := Meant(names, nodes, start, mode, ks);
    if x.Some? && !BadDevice(nodes, x.value) && luck.file && luck.fd then
      && 0 <= fd < |files|
      && files[fd] == OpenFile(x.value, IsDevice(nodes, x.value), !mode.wronly, mode.wronly || mode.rdwr)
    else fd == -1
  }

  /** With every link complete, what is opened is what opening should give. */
  lemma OpenedMeans(names: Names, nodes: Nodes, start: nat, mode: Mode, luck: Luck, ks: seq<Stack>, fd: int,
                    files: seq<OpenFile>)
    requires Stacks(ks) && Sound(nodes) && !mode.nofollow && Opened(names, nodes, start, mode, luck, ks, fd, files)
    ensures fd >= 0 ==> fd < |files| && Opens(names, nodes, start, files[fd].ip)
    ensures fd < 0 && luck.file && luck.fd ==> forall x :: Opens(names, nodes, start, x) ==> BadDevice(nodes, x)
  {
    forall x: nat
      ensures Walk(names, nodes, start, ks, 0) == Some(x) <==> Opens(names, nodes, start, x)
    {
      WalkOpens(names, nodes, start, start, ks, 0, x);
    }
  }

  /** One reference to x given back. */
  function Drop(s: seq<nat>, x: nat): seq<nat> {
    if s == [] then [] else if s[0] == x then s[1..] else [s[0]] + Drop(s[1..], x)
  }

  class Sys {
    var names: Names
    var nodes: Nodes
    var held: seq<nat>        // inode references the running call has taken and not given back, oldest first
    var locks: set<nat>       // inode locks it holds
    var ops: nat              // transactions it is in
    var files: seq<OpenFile>

    /** A file system of the root directory alone, no call running. */
    constructor (root: nat)
      ensures
        && Resolves(names, nodes) && Sound(nodes) && names == map[ROOT := root]
        && nodes == map[root := Node(Dir, 0, [])]
      ensures held == [] && locks == {} && ops == 0 && files == []
    {
      names, nodes := map[ROOT := root], map[root := Node(Dir, 0, [])];
      held, locks, ops, files := [], {}, 0, [];
    }

    method Ilock(ip: nat)
      requires ip !in locks
      modifies this`locks
      ensures locks == old(locks) + {ip}
    {
      locks := locks + {ip};
    }

    method Iunlockput(ip: nat)
      requires ip in locks && ip in held
      modifies this`locks, this`held
      ensures locks == old(locks) - {ip} && held == Drop(old(held), ip)
    {
      locks := locks - {ip};
      held := Drop(held, ip);
    }

    /** namei: a reference to the inode, not locked. */
    method Namei(path: Path) returns (r: Option<nat>)
      modifies this`held
      ensures path in names ==> r == Some(names[path]) && held == old(held) + [names[path]]
      ensures path !in names ==> r == None && held == old(held)
    {
      if path in names {
        r := Some(names[path]);
        held := held + [names[path]];
      } else {
        r := None;
      }
    }

    /** create: the inode at path, locked and referenced. */
    method Create(path: Path, kind: Kind, major: int, luck: Luck) returns (r: Option<nat>)
      requires held == [] && locks == {} && Resolves(names, nodes) && Granted(nodes, luck)
      modifies this`names, this`nodes, this`held, this`locks
      ensures
        && Start(r, names, nodes) == Created(old(names), old(nodes), path, kind, major, luck) && Resolves(names, nodes)
      ensures if r == None then
          held == [] && locks == {}
        else held == [r.value] && locks == {r.value} && r.value in nodes
    {
      if luck.parent == None {
        return None;
      }
      var dp := luck.parent.value;
      held := held + [dp];
      Ilock(dp);
      if path in names {
        r := Existing(dp, names[path], kind);
      } else if !luck.ialloc {
        Iunlockput(dp);
        r := None;
      } else {
        EnteredResolves(names, nodes, path, kind, major, luck);
        r := Fresh(path, dp, luck.newIno, kind, major, luck);
      }
    }

    /** create when the name exists: only some kinds are handed out. */
    method Existing(dp: nat, ip: nat, kind: Kind) returns (r: Option<nat>)
      requires locks == {dp} && held == [dp] && ip in nodes
      modifies this`held, this`locks
      ensures r == if Reusable(nodes, ip, kind) then Some(ip) else None
      ensures r == None ==> held == [] && locks == {}
      ensures r.Some? ==> held == [ip] && locks == {ip}
    {
      held := held + [ip];
      Iunlockput(dp);
      Ilock(ip);
      if kind == File && (nodes[ip].kind == File || nodes[ip].kind == Device) {
        return Some(ip);
      }
      if kind == Link {
        return Some(ip);
      }
      Iunlockput(ip);
      return None;
    }

    /** create when it does not: a new inode, given up again if it cannot be linked. */
    method Fresh(path: Path, dp: nat, ip: nat, kind: Kind, major: int, luck: Luck) returns (r: Option<nat>)
      requires locks == {dp} && held == [dp] && ip != dp && ip !in nodes
      modifies this`names, this`nodes, this`held, this`locks
      ensures r == if (kind == Dir ==> luck.dots) && luck.dirlink then Some(ip) else None
      ensures r == None ==> held == [] && locks == {} && names == old(names) && nodes == old(nodes)
      ensures r.Some? ==> held == [ip] && locks == {ip}
      ensures r.Some? ==>
        names == Entered(old(names), path, ip, dp, kind, luck) && nodes == old(nodes)[ip := Node(kind, major, [])]
    {
      nodes := nodes[ip := Node(kind, major, [])];
      held := held + [ip];
      Ilock(ip);
      if (kind == Dir && !luck.dots) || !luck.dirlink {
        Iunlockput(ip);
        nodes := nodes - {ip};
        assert nodes == old(nodes);
        Iunlockput(dp);
        return None;
      }
      names := Entered(names, path, ip, dp, kind, luck);
      Iunlockput(dp);
      return Some(ip);
    }

    /** One link followed: its inode given back, the one it leads to referenced and locked. */
    method Hop(cur: nat, k: Stack) returns (r: Option<nat>)
      requires Resolves(names, nodes) && GoodStack(k) && IsLink(nodes, cur) && locks == {cur} && held == [cur]
      modifies this`held, this`locks
      ensures r == Hopped(names, nodes, cur, k)
      ensures r == None ==> held == [] && locks == {}
      ensures r.Some? ==> held == [r.value] && locks == {r.value} && r.value in nodes
    {
      var target := PathRead(nodes[cur].content, k);
      Iunlockput(cur);
      r := Namei(target);
      if r.Some? {
        Ilock(r.value);
      }
    }

    /** The loop of sys_open: follow links from the locked inode ip. */
    method Follow(ip: nat, nofollow: bool, ks: seq<Stack>) returns (r: Option<nat>)
      requires Resolves(names, nodes) && Stacks(ks) && ip in nodes && locks == {ip} && held == [ip]
      modifies this`held, this`locks
      ensures r == None ==> held == [] && locks == {}
      ensures r.Some? ==> held == [r.value] && locks == {r.value} && r.value in nodes
      ensures r == if nofollow then Some(ip) else Walk(names, nodes, ip, ks, 0)
    {
      var cur := ip;
      var depth := 0;
      while nodes[cur].kind == Link
        invariant depth <= MAXDEPTH && cur in nodes && locks == {cur} && held == [cur]
        invariant if nofollow then depth == 0 && cur == ip
                  else Walk(names, nodes, cur, ks, depth) == Walk(names, nodes, ip, ks, 0)
        decreases MAXDEPTH - depth
      {
        if depth >= MAXDEPTH {
          Iunlockput(cur);
          return None;
        }
        if nofollow {
          break;
        }
        r := Hop(cur, ks[depth]);
        if r == None {
          return;
        }
        cur, depth := r.value, depth + 1;
      }
      return Some(cur);
    }

    /** sys_open; `path` is None when the argument could not be fetched. */
    method Open(path: Option<Path>, mode: Mode, luck: Luck, ks: seq<Stack>) returns (fd: int)
      requires held == [] && locks == {} && ops == 0 && Resolves(names, nodes) && Granted(nodes, luck) && Stacks(ks)
      modifies this`names, this`nodes, this`held, this`locks, this`ops, this`files
      ensures locks == {} && ops == 0 && -1 <= fd
      ensures fd == -1 ==> held == [] && files == old(files)
      ensures fd != -1 ==>
        fd == |old(files)| && |files| == fd + 1 && files[..fd] == old(files) && held == [files[fd].ip]
      ensures var at := Lookup(old(names), old(nodes), path, mode, luck);
              && names == at.names && nodes == Emptied(at.nodes, mode, fd, files)
              && if at.ip == None then fd == -1 else Opened(at.names, at.nodes, at.ip.value, mode, luck, ks, fd, files)
    {
      if path == None {
        return -1;
      }
      ops := ops + 1;
      var r := Find(path.value, mode, luck);
      if r == None {
        ops := ops - 1;
        return -1;
      }
      fd := OpenInode(r.value, mode, luck, ks);
      ops := ops - 1;
    }

    /** The part of sys_open before the loop: the inode to start from, locked and referenced. */
    method Find(path: Path, mode: Mode, luck: Luck) returns (r: Option<nat>)
      requires held == [] && locks == {} && Resolves(names, nodes) && Granted(nodes, luck)
      modifies this`names, this`nodes, this`held, this`locks
      ensures Start(r, names, nodes) == Lookup(old(names), old(nodes), Some(path), mode, luck)
      ensures r == None ==> held == [] && locks == {}
      ensures r.Some? ==> held == [r.value] && locks == {r.value} && r.value in nodes && Resolves(names, nodes)
    {
      if mode.create {
        r := Create(path, File, 0, luck);
      } else {
        r := Namei(path);
        if r == None {
          return;
        }
        Ilock(r.value);
        if nodes[r.value].kind == Dir && mode != READ_ONLY {
          Iunlockput(r.value);
          r := None;
        }
      }
    }

    /** The rest of sys_open, from the locked inode its path led to. */
    method OpenInode(start: nat, mode: Mode, luck: Luck, ks: seq<Stack>) returns (fd: int)
      requires Resolves(names, nodes) && Stacks(ks) && start in nodes && locks == {start} && held == [start]
      modifies this`nodes, this`held, this`locks, this`files
      ensures locks == {} && -1 <= fd && (fd == -1 ==> held == [] && files == old(files))
      ensures fd != -1 ==>
        fd == |old(files)| && |files| == fd + 1 && files[..fd] == old(files) && held == [files[fd].ip]
      ensures
        && Opened(names, old(nodes), start, mode, luck, ks, fd, files) && nodes == Emptied(old(nodes), mode, fd, files)
    {
      var r := Follow(start, mode.nofollow, ks);
      if r == None {
        return -1;
      }
      var ip := r.value;
      if nodes[ip].kind == Device && (nodes[ip].major < 0 || nodes[ip].major >= NDEV) {
        Iunlockput(ip);
        return -1;
      }
      if !luck.file || !luck.fd {
        Iunlockput(ip);
        return -1;
      }
      fd := |files|;
      files := files + [OpenFile(ip, nodes[ip].kind == Device, !mode.wronly, mode.wronly || mode.rdwr)];
      if mode.trunc && nodes[ip].kind == File {
        nodes := nodes[ip := nodes[ip].(content := [])];
      }
      locks := locks - {ip};
    }

    /** sys_symlink; w1 and w2 are how many bytes the two writes manage. */
    method Symlink(target: Option<Path>, path: Option<Path>, luck: Luck, w1: nat, w2: nat) returns (r: int)
      requires held == [] && locks == {} && ops == 0 && Resolves(names, nodes) && Granted(nodes, luck)
      requires target.Some? ==> CString(target.value) && w2 <= |target.value| + 1
      requires w1 <= 4
      modifies this`names, this`nodes, this`held, this`locks, this`ops
      ensures held == [] && locks == {} && ops == 0
      ensures if target.Some? && path.Some?
              then LinkMade(old(names), old(nodes), names, nodes, target.value, path.value, luck, w1, w2, r)
              else r == -1 && names == old(names) && nodes == old(nodes)
    {
      if target == None || path == None {
        return -1;
      }
      ops := ops + 1;
      r := MakeLink(target.value, path.value, luck, w1, w2);
      ops := ops - 1;
    }

    /** sys_symlink inside its transaction. */
    method MakeLink(target: Path, path: Path, luck: Luck, w1: nat, w2: nat) returns (r: int)
      requires held == [] && locks == {} && Resolves(names, nodes) && Granted(nodes, luck)
      requires CString(target) && w2 <= |target| + 1 && w1 <= 4
      modifies this`names, this`nodes, this`held, this`locks
      ensures held == [] && locks == {}
      ensures LinkMade(old(names), old(nodes), names, nodes, target, path, luck, w1, w2, r)
    {
      ghost var names0, nodes0 := names, nodes;
      var c := Create(path, Link, 0, luck);
      ghost var at := Start(c, names, nodes);
      if c == None {
        NoLink(names0, nodes0, at, path, luck, target, w1, w2);
        return -1;
      }
      r := WriteTarget(c.value, target, w1, w2);
      if nodes[c.value].kind == Dir && w1 > 0 {
        names := luck.left;
      }
      LinkSound(names0, nodes0, at, nodes, path, luck, target, w1, w2, r);
      Iunlockput(c.value);
    }

    method WriteTarget(ip: nat, target: Path, w1: nat, w2: nat) returns (r: int)
      requires ip in nodes && CString(target) && w1 <= 4 && w2 <= |target| + 1
      modifies this`nodes
      ensures r == if w1 == 4 && w2 == |target| + 1 then 0 else -1
      ensures nodes == WithTarget(old(nodes), Some(ip), target, w1, w2)
      ensures r == 0 ==> nodes[ip].content == Stored(old(nodes)[ip].content, target) && Complete(nodes[ip].content)
    {
      WrittenWhole(nodes[ip].content, target);
      TargetReadBack(nodes[ip].content, target);
      var length := Encode32(|target|);
      nodes := nodes[ip := nodes[ip].(content := Overlay(nodes[ip].content, 0, length[..w1]))];
      if w1 != 4 {
        return -1;
      }
      var text := target + [0];
      nodes := nodes[ip := nodes[ip].(content := Overlay(nodes[ip].content, 4, text[..w2]))];
      return if w2 != |target| + 1 then -1 else 0;
    }
  }

  /** At most one inode is meant. */
  lemma OneOpens(names: Names, nodes: Nodes, start: nat, ip: nat)
    ensures forall x :: Opens(names, nodes, start, ip) && Opens(names, nodes, start, x) ==> x == ip
  {
    forall x, d: nat, e: nat |
        && !IsLink(nodes, ip) && !IsLink(nodes, x) && Reaches(names, nodes, start, d, ip)
        && Reaches(names, nodes, start, e, x)
      ensures x == ip
    {
      if d <= e {
        ReachesOne(names, nodes, start, d, ip, e, x);
      } else {
        ReachesOne(names, nodes, start, e, x, d, ip);
      }
    }
  }

  lemma Arrived(names: Names, nodes: Nodes, ip: nat, d: nat, cur: nat)
    requires d <= MAXDEPTH && Reaches(names, nodes, ip, d, cur) && !IsLink(nodes, cur)
    ensures Opens(names, nodes, ip, cur)
  {
  }

  lemma TooDeep(names: Names, nodes: Nodes, ip: nat, cur: nat)
    requires Reaches(names, nodes, ip, MAXDEPTH, cur) && IsLink(nodes, cur)
    ensures forall x :: !Opens(names, nodes, ip, x)
  {
    forall x, e: nat | e <= MAXDEPTH && Reaches(names, nodes, ip, e, x)
      ensures IsLink(nodes, x)
    {
      ReachesOne(names, nodes, ip, e, x, MAXDEPTH, cur);
    }
  }

  /** A link that leads nowhere ends every way through it. */
  lemma Dangling(names: Names, nodes: Nodes, ip: nat, d: nat, cur: nat)
    requires Reaches(names, nodes, ip, d, cur) && IsLink(nodes, cur) && Next(names, nodes, cur) == None
    ensures forall x :: !Opens(names, nodes, ip, x)
  {
    forall x, e: nat | Reaches(names, nodes, ip, e, x)
      ensures IsLink(nodes, x)
    {
      if e <= d {
        ReachesOne(names, nodes, ip, e, x, d, cur);
      } else {
        ReachesOne(names, nodes, ip, d, cur, e, x);
      }
    }
  }
}
