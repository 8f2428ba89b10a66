/** The Kernighan & Ritchie free list as a value: blocks in address order, no two
    touching, with the two edits the allocator makes to it. */
module FreeList {

  /** A block of `size` header-sized units starting at unit address `addr`. */
  datatype Blk = Blk(addr: nat, size: nat) {
    predicate Has(u: nat) { addr <= u < addr + size }
    predicate IsBase() { addr == 0 && size == 0 }
  }

  predicate HasAt(fl: seq<Blk>, u: nat, i: nat) { i < |fl| && fl[i].Has(u) }

  /** Unit u lies in one of the listed blocks. */
  ghost predicate Covers(fl: seq<Blk>, u: nat) {
    exists i: nat {:trigger HasAt(fl, u, i)} :: HasAt(fl, u, i)
  }

  // Each invariant below quantifies over a predicate of one element or pair, and is used
  // by naming it.

  predicate Before(fl: seq<Blk>, i: nat, j: nat) { i < j < |fl| ==> fl[i].addr + fl[i].size < fl[j].addr }

  predicate Real(fl: seq<Blk>, i: nat) { 1 <= i < |fl| ==> fl[i].size >= 1 }

  /** Address-ordered with a gap between neighbours: adjacent free blocks are merged. */
  ghost predicate Ordered(fl: seq<Blk>) {
    forall i: nat, j: nat {:trigger Before(fl, i, j)} :: Before(fl, i, j)
  }

  /** The static zero-size header `base` heads the list; every other block is real. */
  ghost predicate Good(fl: seq<Blk>) {
    && |fl| > 0 && fl[0].IsBase() && Ordered(fl)
    && forall i: nat {:trigger Real(fl, i)} :: Real(fl, i)
  }

  lemma CoversConcat(a: seq<Blk>, b: seq<Blk>, u: nat)
    ensures Covers(a + b, u) <==> Covers(a, u) || Covers(b, u)
  {
    var all, n := a + b, |a|;
    if Covers(all, u) {
      var i: nat :| HasAt(all, u, i);
      assert if i < n then HasAt(a, u, i) else HasAt(b, u, i - n);
    }
    if Covers(a, u) {
      var i: nat :| HasAt(a, u, i);
      assert HasAt(all, u, i);
    }
    if Covers(b, u) {
      var i: nat :| HasAt(b, u, i);
      assert HasAt(all, u, n + i);
    }
  }

  lemma CoversSplit(a: seq<Blk>, b: Blk, c: seq<Blk>, u: nat)
    ensures Covers(a + [b] + c, u) <==> Covers(a, u) || b.Has(u) || Covers(c, u)
  {
    CoversConcat(a + [b], c, u);
    CoversConcat(a, [b], u);
    assert b.Has(u) ==> HasAt([b], u, 0);
  }

  /** Block b belongs right after entry k. */
  predicate Between(fl: seq<Blk>, k: nat, b: Blk) {
    k < |fl| && fl[k].addr + fl[k].size <= b.addr && (k + 1 < |fl| ==> b.addr + b.size <= fl[k + 1].addr)
  }

  predicate TouchesNext(fl: seq<Blk>, k: nat, b: Blk) {
    k + 1 < |fl| && b.addr + b.size == fl[k + 1].addr
  }

  /** b with the entry after it merged in when they touch. */
  function JoinRight(fl: seq<Blk>, k: nat, b: Blk): Blk {
    if TouchesNext(fl, k, b) then Blk(b.addr, b.size + fl[k + 1].size) else b
  }

  function After(fl: seq<Blk>, k: nat, b: Blk): seq<Blk>
    requires k < |fl|
  {
    if TouchesNext(fl, k, b) then fl[k + 2..] else fl[k + 1..]
  }

  /** free(): insert b after entry k, merging with either neighbour it touches. */
  function Insert(fl: seq<Blk>, k: nat, b: Blk): seq<Blk>
    requires k < |fl|
  {
    var r := JoinRight(fl, k, b);
    if fl[k].addr + fl[k].size == b.addr
    then fl[..k] + [Blk(fl[k].addr, fl[k].size + r.size)] + After(fl, k, b)
    else fl[..k + 1] + [r] + After(fl, k, b)
  }

  lemma AfterCovers(fl: seq<Blk>, k: nat, b: Blk, u: nat)
    requires k < |fl|
    ensures JoinRight(fl, k, b).Has(u) || Covers(After(fl, k, b), u) <==> b.Has(u) || Covers(fl[k + 1..], u)
  {
    if TouchesNext(fl, k, b) {
      assert fl[k + 1..] == [] + [fl[k + 1]] + fl[k + 2..];
      CoversSplit([], fl[k + 1], fl[k + 2..], u);
    }
  }

  /** A block grown to its right by the one it touches. */
  lemma GrownCovers(pre: seq<Blk>, x: Blk, r: Blk, aft: seq<Blk>, u: nat)
    requires x.addr + x.size == r.addr
    ensures Covers(pre + [Blk(x.addr, x.size + r.size)] + aft, u) <==>
            Covers(pre, u) || x.Has(u) || r.Has(u) || Covers(aft, u)
  {
    CoversSplit(pre, Blk(x.addr, x.size + r.size), aft, u);
  }

  lemma AddedCovers(pre: seq<Blk>, x: Blk, r: Blk, aft: seq<Blk>, u: nat)
    ensures Covers(pre + [x] + [r] + aft, u) <==> Covers(pre, u) || x.Has(u) || r.Has(u) || Covers(aft, u)
  {
    CoversSplit(pre + [x], r, aft, u);
    CoversSplit(pre, x, [], u);
    assert pre + [x] + [] == pre + [x] && !Covers([], u);
  }

  /** Conservation: freeing adds exactly the block's own units to the list. */
  lemma InsertCovers(fl: seq<Blk>, k: nat, b: Blk, u: nat)
    requires k < |fl|
    ensures Covers(Insert(fl, k, b), u) <==> Covers(fl, u) || b.Has(u)
  {
    var pre, x, tail := fl[..k], fl[k], fl[k + 1..];
    var r, aft := JoinRight(fl, k, b), After(fl, k, b);
    AfterCovers(fl, k, b, u);
    assert fl == pre + [x] + tail;
    CoversSplit(pre, x, tail, u);
    if x.addr + x.size == b.addr {
      GrownCovers(pre, x, r, aft, u);
    } else {
      AddedCovers(pre, x, r, aft, u);
      assert fl[..k + 1] == pre + [x];
    }
  }

  /** `post` may follow a block that ends at `end`. */
  ghost predicate GoodTail(end: nat, post: seq<Blk>) {
    && (forall j: nat {:trigger Follows(end, post, j)} :: Follows(end, post, j))
    && Ordered(post)
  }

  predicate Follows(end: nat, post: seq<Blk>, j: nat) { j < |post| ==> end < post[j].addr && post[j].size >= 1 }

  /** `pre` may stand before a block that starts at `start`. */
  ghost predicate GoodHead(pre: seq<Blk>, start: nat) {
    && (forall i: nat {:trigger Precedes(pre, i, start)} :: Precedes(pre, i, start))
    && Ordered(pre)
  }

  predicate Precedes(pre: seq<Blk>, i: nat, start: nat) {
    i < |pre| ==> pre[i].addr + pre[i].size < start && (i >= 1 ==> pre[i].size >= 1)
  }

  /** A list with one new block, given what its neighbours look like. */
  lemma SpliceGood(pre: seq<Blk>, m: Blk, post: seq<Blk>, l: seq<Blk>)
    requires l == pre + [m] + post && GoodHead(pre, m.addr) && GoodTail(m.addr + m.size, post)
    requires if |pre| == 0 then m.IsBase() else pre[0].IsBase() && m.size >= 1
    ensures Good(l)
  {
    var n := |pre|;
    forall i: nat
      ensures Real(l, i)
    {
      if i < n {
        assert Precedes(pre, i, m.addr);
      } else if i > n {
        assert Follows(m.addr + m.size, post, i - n - 1);
      }
    }
    forall i: nat, j: nat
      ensures Before(l, i, j)
    {
      if i < j < |l| {
        SplicePair(pre, m, post, l, i, j);
      }
    }
  }

  lemma SplicePair(pre: seq<Blk>, m: Blk, post: seq<Blk>, l: seq<Blk>, i: nat, j: nat)
    requires l == pre + [m] + post && GoodHead(pre, m.addr) && GoodTail(m.addr + m.size, post) && i < j < |l|
    ensures l[i].addr + l[i].size < l[j].addr
  {
    var n := |pre|;
    if i < n {
      assert Precedes(pre, i, m.addr);
      if j < n {
        assert Before(pre, i, j);
      } else if j > n {
        assert Follows(m.addr + m.size, post, j - n - 1);
      }
    } else if i == n {
      assert Follows(m.addr + m.size, post, j - n - 1);
    } else {
      assert Before(post, i - n - 1, j - n - 1);
    }
  }

  /** What follows entry k. */
  lemma TailGood(fl: seq<Blk>, k: nat, from: nat, end: nat, post: seq<Blk>)
    requires Good(fl) && k < from <= |fl| && post == fl[from..] && (from < |fl| ==> end < fl[from].addr)
    ensures GoodTail(end, post)
  {
    forall j: nat
      ensures Follows(end, post, j)
    {
      if j < |post| {
        assert Real(fl, from + j) && Before(fl, from, from + j);
      }
    }
    forall i: nat, j: nat
      ensures Before(post, i, j)
    {
      assert Before(fl, from + i, from + j);
    }
  }

  /** What precedes entry k. */
  lemma HeadGood(fl: seq<Blk>, k: nat, start: nat, pre: seq<Blk>)
    requires Good(fl) && k <= |fl| && pre == fl[..k] && (k >= 1 ==> fl[k - 1].addr + fl[k - 1].size < start)
    ensures GoodHead(pre, start)
  {
    forall i: nat
      ensures Precedes(pre, i, start)
    {
      if i < k {
        assert Real(fl, i) && Before(fl, i, k - 1);
      }
    }
    forall i: nat, j: nat
      ensures Before(pre, i, j)
    {
      assert Before(fl, i, j);
    }
  }

  lemma AfterGood(fl: seq<Blk>, k: nat, b: Blk)
    requires Good(fl) && Between(fl, k, b)
    ensures GoodTail(JoinRight(fl, k, b).addr + JoinRight(fl, k, b).size, After(fl, k, b))
  {
    if TouchesNext(fl, k, b) {
      assert Before(fl, k + 1, k + 2);
      TailGood(fl, k, k + 2, JoinRight(fl, k, b).addr + JoinRight(fl, k, b).size, After(fl, k, b));
    } else {
      TailGood(fl, k, k + 1, b.addr + b.size, After(fl, k, b));
    }
  }

  lemma GrowGood(fl: seq<Blk>, k: nat, n: nat, post: seq<Blk>)
    requires Good(fl) && 1 <= k < |fl| && GoodTail(fl[k].addr + fl[k].size + n, post)
    ensures Good(fl[..k] + [Blk(fl[k].addr, fl[k].size + n)] + post)
  {
    var m := Blk(fl[k].addr, fl[k].size + n);
    assert Before(fl, k - 1, k) && Real(fl, k);
    HeadGood(fl, k, m.addr, fl[..k]);
    SpliceGood(fl[..k], m, post, fl[..k] + [m] + post);
  }

  lemma LinkGood(fl: seq<Blk>, k: nat, m: Blk, post: seq<Blk>)
    requires Good(fl) && k < |fl| && fl[k].addr + fl[k].size < m.addr && m.size >= 1 && GoodTail(m.addr + m.size, post)
    ensures Good(fl[..k + 1] + [m] + post)
  {
    HeadGood(fl, k + 1, m.addr, fl[..k + 1]);
    SpliceGood(fl[..k + 1], m, post, fl[..k + 1] + [m] + post);
  }

  /** The list stays ordered and fully merged. */
  lemma InsertGood(fl: seq<Blk>, k: nat, b: Blk)
    requires Good(fl) && Between(fl, k, b) && b.addr >= 1 && b.size >= 1
    ensures Good(Insert(fl, k, b))
  {
    var r := JoinRight(fl, k, b);
    AfterGood(fl, k, b);
    assert TouchesNext(fl, k, b) ==> Real(fl, k + 1);
    if fl[k].addr + fl[k].size == b.addr {
      GrowGood(fl, k, r.size, After(fl, k, b));
    } else {
      LinkGood(fl, k, r, After(fl, k, b));
    }
  }

  /** malloc(): carve n units from entry k, from its tail unless it is used up. */
  function Take(fl: seq<Blk>, k: nat, n: nat): seq<Blk>
    requires k < |fl| && n <= fl[k].size
  {
    if fl[k].size == n then fl[..k] + fl[k + 1..]
    else fl[k := Blk(fl[k].addr, fl[k].size - n)]
  }

  lemma TakeGood(fl: seq<Blk>, k: nat, n: nat)
    requires Good(fl) && 1 <= k < |fl| && 1 <= n <= fl[k].size
    ensures Good(Take(fl, k, n))
  {
    var l := Take(fl, k, n);
    var gone := fl[k].size == n;
    forall i: nat
      ensures Real(l, i)
    {
      assert Real(fl, i) && Real(fl, i + 1);
    }
    forall i: nat, j: nat
      ensures Before(l, i, j)
    {
      if i < j < |l| {
        var i', j' := if gone && i >= k then i + 1 else i, if gone && j >= k then j + 1 else j;
        assert Before(fl, i', j');
      }
    }
  }

  /** Conservation: the list loses exactly the carved units. */
  lemma TakeCovers(fl: seq<Blk>, k: nat, n: nat, u: nat)
    requires Good(fl) && 1 <= k < |fl| && 1 <= n <= fl[k].size
    ensures Covers(Take(fl, k, n), u) <==> Covers(fl, u) && !Blk(fl[k].addr + fl[k].size - n, n).Has(u)
  {
    assert fl == fl[..k] + [fl[k]] + fl[k + 1..];
    CoversSplit(fl[..k], fl[k], fl[k + 1..], u);
    SidesApart(fl, k, u);
    if fl[k].size == n {
      CoversConcat(fl[..k], fl[k + 1..], u);
    } else {
      var rest := Blk(fl[k].addr, fl[k].size - n);
      assert Take(fl, k, n) == fl[..k] + [rest] + fl[k + 1..];
      CoversSplit(fl[..k], rest, fl[k + 1..], u);
    }
  }

  lemma SidesApart(fl: seq<Blk>, k: nat, u: nat)
    requires Ordered(fl) && k < |fl|
    ensures !(fl[k].Has(u) && Covers(fl[..k], u)) && !(fl[k].Has(u) && Covers(fl[k + 1..], u))
  {
    if Covers(fl[..k], u) {
      var i: nat :| HasAt(fl[..k], u, i);
      assert Before(fl, i, k);
    }
    if Covers(fl[k + 1..], u) {
      var i: nat :| HasAt(fl[k + 1..], u, i);
      assert Before(fl, k, k + 1 + i);
    }
  }
}
