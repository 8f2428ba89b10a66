/** The user-level storage allocator of Kernighan & Ritchie, section 8.7, over an
    array of header-sized units. Unit address 0 is the static header `base`. */
module Umalloc {
  import opened FreeList

  /** Address of the entry after entry i of the circular list. */
  function NextAddr(fl: seq<Blk>, i: nat): nat
    requires i < |fl|
  {
    if i + 1 < |fl| then fl[i + 1].addr else fl[0].addr
  }

  // As in the list, every invariant quantifies over a predicate of one element.

  /** The header of entry i holds its size and the address of the entry after it. */
  predicate Spelled(ptr: seq<nat>, size: seq<nat>, fl: seq<Blk>, i: nat) {
    i < |fl| ==>
      && fl[i].addr < |ptr| && fl[i].addr < |size|
      && size[fl[i].addr] == fl[i].size && ptr[fl[i].addr] == NextAddr(fl, i)
  }

  /** The headers in memory spell out the list: sizes, and a ring of pointers. */
  ghost predicate Ring(ptr: seq<nat>, size: seq<nat>, fl: seq<Blk>) {
    |ptr| == |size| && forall i: nat {:trigger Spelled(ptr, size, fl, i)} :: Spelled(ptr, size, fl, i)
  }

  predicate EndsBy(fl: seq<Blk>, h: nat, i: nat) { i < |fl| ==> fl[i].addr + fl[i].size <= h }

  ghost predicate Below(fl: seq<Blk>, h: nat) { forall i: nat {:trigger EndsBy(fl, h, i)} :: EndsBy(fl, h, i) }

  predicate IsEntry(fl: seq<Blk>, a: nat, k: nat) { k < |fl| && fl[k].addr == a }

  ghost predicate Entry(fl: seq<Blk>, a: nat) { exists k: nat :: IsEntry(fl, a, k) }

  /** The free list is in memory, within bounds, and freep is one of its entries. */
  ghost predicate Listed(ptr: seq<nat>, size: seq<nat>, fl: seq<Blk>, freep: nat) {
    Good(fl) && Ring(ptr, size, fl) && Below(fl, |ptr|) && Entry(fl, freep)
  }

  predicate OffEntry(fl: seq<Blk>, a: nat, n: nat, i: nat) {
    i < |fl| ==> a + n <= fl[i].addr || fl[i].addr + fl[i].size <= a
  }

  /** The n units at a meet no listed block. */
  ghost predicate Off(fl: seq<Blk>, a: nat, n: nat) {
    forall i: nat {:trigger OffEntry(fl, a, n, i)} :: OffEntry(fl, a, n, i)
  }

  /** The header of a live block still holds its size. */
  predicate Held(size: seq<nat>, live: map<nat, nat>, a: nat) {
    a in live ==> 1 <= a && 1 <= live[a] && a + live[a] <= |size| && size[a] == live[a]
  }

  predicate Separate(live: map<nat, nat>, a: nat, c: nat) {
    a in live && c in live && a != c ==> a + live[a] <= c || c + live[c] <= a
  }

  ghost predicate NotFree(fl: seq<Blk>, live: map<nat, nat>, a: nat) { a in live ==> Off(fl, a, live[a]) }

  /** Live blocks, header address to size in units: disjoint from each other and from the list. */
  ghost predicate LiveOk(size: seq<nat>, fl: seq<Blk>, live: map<nat, nat>) {
    && (forall a: nat {:trigger Held(size, live, a)} :: Held(size, live, a))
    && (forall a: nat, c: nat {:trigger Separate(live, a, c)} :: Separate(live, a, c))
    && (forall a: nat {:trigger NotFree(fl, live, a)} :: NotFree(fl, live, a))
  }

  predicate Within(live: map<nat, nat>, a: nat, u: nat) { a in live && a <= u < a + live[a] }

  /** Unit u lies in a live block. */
  ghost predicate InLive(live: map<nat, nat>, u: nat) { exists a: nat :: Within(live, a, u) }

  /** Every unit obtained from sbrk is in a free or a live block, and no other is. */
  ghost predicate Conserved(fl: seq<Blk>, live: map<nat, nat>, owned: iset<nat>) {
    forall u: nat {:trigger Accounted(fl, live, owned, u)} :: Accounted(fl, live, owned, u)
  }

  ghost predicate Accounted(fl: seq<Blk>, live: map<nat, nat>, owned: iset<nat>, u: nat) {
    u in owned <==> Covers(fl, u) || InLive(live, u)
  }

  /** Everything the allocator keeps true once malloc has run. */
  ghost predicate HeapOk(ptr: seq<nat>, size: seq<nat>, fl: seq<Blk>, freep: nat, live: map<nat, nat>,
                         owned: iset<nat>) {
    Listed(ptr, size, fl, freep) && LiveOk(size, fl, live) && Conserved(fl, live, owned)
  }

  /** Sizes survive everywhere but in the headers at x and y. */
  ghost predicate SameBut(size: seq<nat>, size': seq<nat>, x: nat, y: nat) {
    |size'| >= |size| && forall a: nat {:trigger Same(size, size', a)} :: a != x && a != y ==> Same(size, size', a)
  }

  predicate Same(s: seq<nat>, s': seq<nat>, a: nat) { a < |s| ==> a < |s'| && s'[a] == s[a] }

  ghost predicate Extends(s: seq<nat>, s': seq<nat>) {
    |s'| >= |s| && forall a: nat {:trigger Same(s, s', a)} :: Same(s, s', a)
  }

  predicate LiveBy(live: map<nat, nat>, h: nat, a: nat) { a in live ==> a + live[a] <= h }

  /** Every block, free or live, ends at or below h. */
  ghost predicate Clear(fl: seq<Blk>, live: map<nat, nat>, h: nat) {
    Below(fl, h) && forall a: nat {:trigger LiveBy(live, h, a)} :: LiveBy(live, h, a)
  }

  /** Block b goes after entry t and before the entry that follows. */
  predicate Fits(fl: seq<Blk>, t: nat, b: Blk) {
    Between(fl, t, b) && fl[t].addr < b.addr && (t + 1 < |fl| ==> b.addr < fl[t + 1].addr)
  }

  /** A block clear of the list has a place in it. */
  lemma {:induction false} Place(fl: seq<Blk>, n: nat, b: Blk) returns (t: nat)
    requires Good(fl) && 1 <= n <= |fl| && b.addr >= 1 && b.size >= 1
    requires Off(fl, b.addr, b.size) && (n < |fl| ==> b.addr < fl[n].addr)
    ensures t < n && Fits(fl, t, b)
  {
    assert Real(fl, n - 1) && OffEntry(fl, b.addr, b.size, n - 1) && OffEntry(fl, b.addr, b.size, n);
    if fl[n - 1].addr < b.addr {
      t := n - 1;
    } else {
      t := Place(fl, n - 1, b);
    }
  }

  // ----------------------------------------- pointer surgery of free()

  predicate Lower(fl: seq<Blk>, i: nat, j: nat) { i < j < |fl| ==> fl[i].addr < fl[j].addr }

  /** Addresses strictly increase along the list. */
  ghost predicate Rising(fl: seq<Blk>) { forall i: nat, j: nat {:trigger Lower(fl, i, j)} :: Lower(fl, i, j) }

  lemma GoodRises(fl: seq<Blk>)
    requires Good(fl)
    ensures Rising(fl)
  {
    forall i: nat, j: nat
      ensures Lower(fl, i, j)
    {
      assert Before(fl, i, j);
    }
  }

  /** bp becomes an entry of its own after entry t. */
  lemma RingLink(ptr: seq<nat>, size: seq<nat>, fl: seq<Blk>, t: nat, b: Blk, ptr': seq<nat>, l: seq<Blk>)
    requires Ring(ptr, size, fl) && Rising(fl) && t < |fl| && b.addr < |ptr| && size[b.addr] == b.size
    requires fl[t].addr < b.addr && (t + 1 < |fl| ==> b.addr < fl[t + 1].addr) && fl[t].addr < |ptr|
    requires ptr' == ptr[b.addr := NextAddr(fl, t)][fl[t].addr := b.addr] && l == fl[..t + 1] + [b] + fl[t + 1..]
    ensures Ring(ptr', size, l) && Rising(l)
  {
    forall i: nat
      ensures Spelled(ptr', size, l, i)
    {
      if i < |l| {
        RingLinkAt(ptr, size, fl, t, b, ptr', l, i);
      }
    }
    forall i: nat, j: nat
      ensures Lower(l, i, j)
    {
      if i < j {
        assert Lower(fl, i, t) && Lower(fl, t + 1, j - 1) && Lower(fl, i, j) && Lower(fl, i, j - 1);
        assert (i >= 1 ==> Lower(fl, i - 1, j - 1));
      }
    }
  }

  lemma RingLinkAt(ptr: seq<nat>, size: seq<nat>, fl: seq<Blk>, t: nat, b: Blk, ptr': seq<nat>, l: seq<Blk>, i: nat)
    requires Ring(ptr, size, fl) && Rising(fl) && t < |fl| && b.addr < |ptr| && size[b.addr] == b.size
    requires fl[t].addr < b.addr && (t + 1 < |fl| ==> b.addr < fl[t + 1].addr) && fl[t].addr < |ptr|
    requires
      && ptr' == ptr[b.addr := NextAddr(fl, t)][fl[t].addr := b.addr] && l == fl[..t + 1] + [b] + fl[t + 1..] && i < |l|
    ensures Spelled(ptr', size, l, i)
  {
    assert Spelled(ptr, size, fl, t);
    if i <= t {
      assert l[i] == fl[i] && Spelled(ptr, size, fl, i) && Lower(fl, i, t);
    } else if i > t + 1 {
      assert l[i] == fl[i - 1] && Spelled(ptr, size, fl, i - 1) && Lower(fl, t, i - 1) && Lower(fl, t + 1, i - 1);
    }
  }

  /** Entry t becomes block m at the same address. */
  lemma RingResize(ptr: seq<nat>, size: seq<nat>, fl: seq<Blk>, t: nat, m: Blk, size': seq<nat>, l: seq<Blk>)
    requires Ring(ptr, size, fl) && Rising(fl) && t < |fl| && m.addr == fl[t].addr < |size|
    requires size' == size[m.addr := m.size] && l == fl[t := m]
    ensures Ring(ptr, size', l) && Rising(l)
  {
    forall i: nat
      ensures Spelled(ptr, size', l, i)
    {
      assert Spelled(ptr, size, fl, i) && Lower(fl, i, t) && Lower(fl, t, i);
      assert i < |l| ==> NextAddr(l, i) == NextAddr(fl, i);
    }
    forall i: nat, j: nat
      ensures Lower(l, i, j)
    {
      assert Lower(fl, i, j);
    }
  }

  /** Entry t + 1 leaves the list. */
  lemma RingUnlink(ptr: seq<nat>, size: seq<nat>, fl: seq<Blk>, t: nat, ptr': seq<nat>, l: seq<Blk>)
    requires Ring(ptr, size, fl) && Rising(fl) && t + 1 < |fl| && fl[t].addr < |ptr| && fl[t + 1].addr < |ptr|
    requires ptr' == ptr[fl[t].addr := ptr[fl[t + 1].addr]] && l == fl[..t + 1] + fl[t + 2..]
    ensures Ring(ptr', size, l) && Rising(l)
  {
    forall i: nat
      ensures Spelled(ptr', size, l, i)
    {
      assert Spelled(ptr, size, fl, t + 1) && Spelled(ptr, size, fl, i) && Spelled(ptr, size, fl, i + 1);
      assert Lower(fl, i, t) && Lower(fl, t, i + 1);
      assert i < |l| ==> l[i] == if i <= t then fl[i] else fl[i + 1];
    }
    forall i: nat, j: nat
      ensures Lower(l, i, j)
    {
      assert Lower(fl, i, j) && Lower(fl, i, j + 1) && Lower(fl, i + 1, j + 1);
    }
  }

  /** Headers after the first half of free(): bp takes its successor's place. */
  function RightSize(ptr: seq<nat>, size: seq<nat>, p: nat, bp: nat): seq<nat>
    requires |ptr| == |size| && p < |ptr| && bp < |ptr| && ptr[p] < |ptr|
  {
    if bp + size[bp] == ptr[p] then size[bp := size[bp] + size[ptr[p]]] else size
  }

  function RightPtr(ptr: seq<nat>, size: seq<nat>, p: nat, bp: nat): seq<nat>
    requires |ptr| == |size| && p < |ptr| && bp < |ptr| && ptr[p] < |ptr|
  {
    ptr[bp := if bp + size[bp] == ptr[p] then ptr[ptr[p]] else ptr[p]]
  }

  /** Headers after the second half: p absorbs bp or points to it. */
  function LeftSize(size: seq<nat>, p: nat, bp: nat): seq<nat>
    requires p < |size| && bp < |size|
  {
    if p + size[p] == bp then size[p := size[p] + size[bp]] else size
  }

  function LeftPtr(ptr: seq<nat>, size: seq<nat>, p: nat, bp: nat): seq<nat>
    requires |ptr| == |size| && p < |ptr| && bp < |ptr|
  {
    ptr[p := if p + size[p] == bp then ptr[bp] else bp]
  }

  /** The whole of free()'s header updates. */
  function FreedSize(ptr: seq<nat>, size: seq<nat>, p: nat, bp: nat): (r: seq<nat>)
    requires |ptr| == |size| && p < |ptr| && bp < |ptr| && ptr[p] < |ptr|
    ensures |r| == |size|
  {
    LeftSize(RightSize(ptr, size, p, bp), p, bp)
  }

  function FreedPtr(ptr: seq<nat>, size: seq<nat>, p: nat, bp: nat): (r: seq<nat>)
    requires |ptr| == |size| && p < |ptr| && bp < |ptr| && ptr[p] < |ptr|
    ensures |r| == |ptr|
  {
    LeftPtr(RightPtr(ptr, size, p, bp), RightSize(ptr, size, p, bp), p, bp)
  }

  /** free() touches two headers. */
  lemma FreedSame(ptr: seq<nat>, size: seq<nat>, p: nat, bp: nat)
    requires |ptr| == |size| && p < |ptr| && bp < |ptr| && ptr[p] < |ptr|
    ensures SameBut(size, FreedSize(ptr, size, p, bp), bp, p) && SameBut(ptr, FreedPtr(ptr, size, p, bp), bp, p)
  {
    forall a: nat | a != bp && a != p
      ensures Same(size, FreedSize(ptr, size, p, bp), a) && Same(ptr, FreedPtr(ptr, size, p, bp), a)
    {
      assert Same(size, RightSize(ptr, size, p, bp), a) && Same(ptr, RightPtr(ptr, size, p, bp), a);
    }
  }

  // ------------------------------------------- units of live blocks are left alone

  ghost predicate IntactAt(s: seq<nat>, s': seq<nat>, live: map<nat, nat>, u: nat) {
    InLive(live, u) ==> u < |s| && u < |s'| && s'[u] == s[u]
  }

  /** Every unit of every live block keeps its contents. */
  ghost predicate Intact(s: seq<nat>, s': seq<nat>, live: map<nat, nat>) {
    forall u: nat {:trigger IntactAt(s, s', live, u)} :: IntactAt(s, s', live, u)
  }

  /** Unit x is the header of list entry i or lies inside it. */
  predicate AtEntry(fl: seq<Blk>, i: nat, x: nat) {
    i < |fl| && (x == fl[i].addr || fl[i].addr <= x < fl[i].addr + fl[i].size)
  }

  lemma EntryNotLive(size: seq<nat>, fl: seq<Blk>, live: map<nat, nat>, i: nat, x: nat, u: nat)
    requires Good(fl) && LiveOk(size, fl, live) && AtEntry(fl, i, x) && InLive(live, u)
    ensures u != x && u < |size|
  {
    var a: nat :| Within(live, a, u);
    assert Held(size, live, a) && NotFree(fl, live, a);
    assert OffEntry(fl, a, live[a], i) && Real(fl, i);
  }

  /** Stores to headers on the list, or inside a listed block. */
  lemma ListIntact(s: seq<nat>, s': seq<nat>, size: seq<nat>, fl: seq<Blk>, live: map<nat, nat>, i: nat, x: nat, j: nat,
                   y: nat)
    requires
      && Good(fl) && LiveOk(size, fl, live) && |s| == |size| && AtEntry(fl, i, x) && AtEntry(fl, j, y)
      && SameBut(s, s', x, y)
    ensures Intact(s, s', live)
  {
    forall u: nat
      ensures IntactAt(s, s', live, u)
    {
      if InLive(live, u) {
        EntryNotLive(size, fl, live, i, x, u);
        EntryNotLive(size, fl, live, j, y, u);
        assert Same(s, s', u);
      }
    }
  }

  /** Stores to the header of the block being freed and to one on the list. */
  lemma FreeIntact(s: seq<nat>, s': seq<nat>, size: seq<nat>, fl: seq<Blk>, live: map<nat, nat>, bp: nat, t: nat,
                   live': map<nat, nat>)
    requires Good(fl) && LiveOk(size, fl, live) && |s| == |size| && t < |fl| && bp in live && live' == live - {bp}
    requires SameBut(s, s', bp, fl[t].addr)
    ensures Intact(s, s', live')
  {
    forall u: nat
      ensures IntactAt(s, s', live', u)
    {
      if InLive(live', u) {
        var a: nat :| Within(live', a, u);
        assert Within(live, a, u) && Separate(live, a, bp) && Held(size, live, bp);
        EntryNotLive(size, fl, live, t, fl[t].addr, u);
        assert Same(s, s', u);
      }
    }
  }

  /** Stores to a header above every block and to one on the list. */
  lemma GrowIntact(s: seq<nat>, s': seq<nat>, size: seq<nat>, fl: seq<Blk>, live: map<nat, nat>, hp: nat, t: nat)
    requires Good(fl) && LiveOk(size, fl, live) && |s| == |size| && t < |fl| && Clear(fl, live, hp)
    requires SameBut(s, s', hp, fl[t].addr)
    ensures Intact(s, s', live)
  {
    forall u: nat
      ensures IntactAt(s, s', live, u)
    {
      if InLive(live, u) {
        var a: nat :| Within(live, a, u);
        assert LiveBy(live, hp, a);
        EntryNotLive(size, fl, live, t, fl[t].addr, u);
        assert Same(s, s', u);
      }
    }
  }

  lemma ExtendIntact(s: seq<nat>, s': seq<nat>, size: seq<nat>, fl: seq<Blk>, live: map<nat, nat>)
    requires Good(fl) && LiveOk(size, fl, live) && |s| == |size| && Extends(s, s')
    ensures Intact(s, s', live)
  {
    forall u: nat
      ensures IntactAt(s, s', live, u)
    {
      if InLive(live, u) {
        EntryNotLive(size, fl, live, 0, fl[0].addr, u);
        assert Same(s, s', u);
      }
    }
  }

  lemma IntactTwice(s: seq<nat>, s1: seq<nat>, s2: seq<nat>, live: map<nat, nat>)
    requires Intact(s, s1, live) && Intact(s1, s2, live)
    ensures Intact(s, s2, live)
  {
    forall u: nat
      ensures IntactAt(s, s2, live, u)
    {
      assert IntactAt(s, s1, live, u) && IntactAt(s1, s2, live, u);
    }
  }

  lemma TakenIntact(ptr: seq<nat>, size: seq<nat>, fl: seq<Blk>, freep: nat, live: map<nat, nat>, owned: iset<nat>,
                    k: nat, n: nat, q: nat, p: nat)
    requires
      && HeapOk(ptr, size, fl, freep, live, owned) && 1 <= k < |fl| && 1 <= n <= fl[k].size && q == fl[k - 1].addr
      && p == fl[k].addr
    requires q < |ptr| && p + fl[k].size <= |ptr| == |size| && size[p] == fl[k].size
    ensures Intact(ptr, TakenPtr(ptr, size, q, p, n), live) && Intact(size, TakenSize(size, p, n), live)
  {
    var c := p + (size[p] - n);
    TakenSame(size, p, n, c);
    ListIntact(size, TakenSize(size, p, n), size, fl, live, k, p, k, c);
    assert SameBut(ptr, TakenPtr(ptr, size, q, p, n), q, q) by {
      forall a: nat | a != q
        ensures Same(ptr, TakenPtr(ptr, size, q, p, n), a)
      {
      }
    }
    ListIntact(ptr, TakenPtr(ptr, size, q, p, n), size, fl, live, k - 1, q, k - 1, q);
  }

  /** The list between the two halves: bp linked after entry t, joined to what follows. */
  function Linked(fl: seq<Blk>, t: nat, b: Blk): seq<Blk>
    requires t < |fl|
  {
    fl[..t + 1] + [JoinRight(fl, t, b)] + After(fl, t, b)
  }

  /** First half: bp, with its successor merged in if they touch, linked after p. */
  lemma RightRing(ptr: seq<nat>, size: seq<nat>, fl: seq<Blk>, t: nat, b: Blk, p: nat, ptr': seq<nat>, size': seq<nat>)
    requires
      && Ring(ptr, size, fl) && Rising(fl) && Fits(fl, t, b) && 1 <= b.addr < |ptr| && size[b.addr] == b.size
      && fl[0].addr == 0
    requires p == fl[t].addr < |ptr| && ptr[p] < |ptr|
    requires ptr' == RightPtr(ptr, size, p, b.addr)[p := b.addr] && size' == RightSize(ptr, size, p, b.addr)
    ensures Ring(ptr', size', Linked(fl, t, b)) && Rising(Linked(fl, t, b))
  {
    var nxt := ptr[p];
    assert Spelled(ptr, size, fl, t) && Spelled(ptr, size, fl, t + 1);
    var p1, l1 := ptr[b.addr := nxt][p := b.addr], fl[..t + 1] + [b] + fl[t + 1..];
    RingLink(ptr, size, fl, t, b, p1, l1);
    if TouchesNext(fl, t, b) {
      assert Lower(fl, t, t + 1);
      var l2 := fl[..t + 1] + [b] + fl[t + 2..];
      RightJoin(p1, size, l1, t + 1, JoinRight(fl, t, b), ptr', size', l2, Linked(fl, t, b));
    } else {
      assert ptr' == p1 && size' == size && Linked(fl, t, b) == l1;
    }
  }

  /** Entry t swallows entry t + 1. */
  lemma RightJoin(ptr: seq<nat>, size: seq<nat>, fl: seq<Blk>, t: nat, m: Blk, ptr': seq<nat>, size': seq<nat>,
                  mid: seq<Blk>, l: seq<Blk>)
    requires Ring(ptr, size, fl) && Rising(fl) && t + 1 < |fl| && fl[t].addr < |ptr| && fl[t + 1].addr < |ptr|
    requires m.addr == fl[t].addr && m.size == fl[t].size + fl[t + 1].size
    requires ptr' == ptr[m.addr := ptr[fl[t + 1].addr]] && size' == size[m.addr := m.size]
    requires mid == fl[..t + 1] + fl[t + 2..] && l == fl[..t] + [m] + fl[t + 2..]
    ensures Ring(ptr', size', l) && Rising(l)
  {
    RingUnlink(ptr, size, fl, t, ptr', mid);
    assert l == mid[t := m];
    RingResize(ptr', size, mid, t, m, size', l);
  }

  function MergeAt(l: seq<Blk>, t: nat): seq<Blk>
    requires t + 1 < |l|
  {
    if l[t].addr + l[t].size == l[t + 1].addr
    then l[..t] + [Blk(l[t].addr, l[t].size + l[t + 1].size)] + l[t + 2..] else l
  }

  /** Second half: p absorbs entry t + 1 if they touch. */
  lemma LeftRing(ptr: seq<nat>, size: seq<nat>, l: seq<Blk>, t: nat, p: nat, bp: nat, link: seq<nat>)
    requires t + 1 < |l| && p == l[t].addr < |ptr| && bp == l[t + 1].addr < |ptr| && |ptr| == |size|
    requires link == ptr[p := bp] && Ring(link, size, l) && Rising(l)
    ensures Ring(LeftPtr(ptr, size, p, bp), LeftSize(size, p, bp), MergeAt(l, t))
  {
    assert Spelled(link, size, l, t) && Spelled(link, size, l, t + 1) && Lower(l, t, t + 1);
    if p + size[p] == bp {
      var m := Blk(p, l[t].size + l[t + 1].size);
      assert link[p := link[bp]] == ptr[p := ptr[bp]];
      RightJoin(link, size, l, t, m, LeftPtr(ptr, size, p, bp), LeftSize(size, p, bp), l[..t + 1] + l[t + 2..],
                MergeAt(l, t));
    }
  }

  lemma InsertIsMerge(fl: seq<Blk>, t: nat, b: Blk)
    requires t < |fl|
    ensures var l := Linked(fl, t, b);
      t + 1 < |l| && l[t] == fl[t] && l[t + 1].addr == b.addr && Insert(fl, t, b) == MergeAt(l, t)
  {
    var l := Linked(fl, t, b);
    assert l[..t] == fl[..t] && l[t + 2..] == After(fl, t, b);
  }

  /** free()'s pointer surgery carries out Insert. */
  lemma FreeRing(ptr: seq<nat>, size: seq<nat>, fl: seq<Blk>, t: nat, b: Blk, p: nat)
    requires
      && Ring(ptr, size, fl) && Good(fl) && Fits(fl, t, b) && 1 <= b.addr < |ptr| && size[b.addr] == b.size
      && p == fl[t].addr
    ensures p < |ptr| && ptr[p] < |ptr|
    ensures Ring(FreedPtr(ptr, size, p, b.addr), FreedSize(ptr, size, p, b.addr), Insert(fl, t, b))
  {
    GoodRises(fl);
    assert Spelled(ptr, size, fl, t) && Spelled(ptr, size, fl, t + 1) && Spelled(ptr, size, fl, 0);
    var rp, rs := RightPtr(ptr, size, p, b.addr), RightSize(ptr, size, p, b.addr);
    RightRing(ptr, size, fl, t, b, p, rp[p := b.addr], rs);
    InsertIsMerge(fl, t, b);
    LeftRing(rp, rs, Linked(fl, t, b), t, p, b.addr, rp[p := b.addr]);
  }

  // ------------------------------------------------------------- the heap

  /** Where the inserted units end up. */
  lemma InsertEntry(fl: seq<Blk>, t: nat, b: Blk, l: seq<Blk>)
    requires t < |fl| && l == Insert(fl, t, b)
    ensures t < |l| && l[t].addr == fl[t].addr
    ensures l[t].size >= b.size || (t + 1 < |l| && l[t + 1].size >= b.size)
  {
  }

  /** Each entry of the new list is an old one or made of old ones and b. */
  lemma InsertAt(fl: seq<Blk>, t: nat, b: Blk, l: seq<Blk>, i: nat)
    requires t < |fl| && l == Insert(fl, t, b) && i < |l|
    ensures var r := JoinRight(fl, t, b);
      || (i < |fl| && l[i] == fl[i]) || (1 <= i && i - 1 < |fl| && l[i] == fl[i - 1])
      || (i + 1 < |fl| && l[i] == fl[i + 1])
      || l[i] == r || (fl[t].addr + fl[t].size == b.addr && l[i] == Blk(fl[t].addr, fl[t].size + r.size))
  {
  }

  lemma InsertBelow(fl: seq<Blk>, t: nat, b: Blk, h: nat, l: seq<Blk>)
    requires t < |fl| && b.addr + b.size <= h && Below(fl, h) && l == Insert(fl, t, b)
    ensures Below(l, h)
  {
    assert EndsBy(fl, h, t) && EndsBy(fl, h, t + 1);
    forall i: nat
      ensures EndsBy(l, h, i)
    {
      if i < |l| {
        InsertAt(fl, t, b, l, i);
        assert EndsBy(fl, h, i) && EndsBy(fl, h, i + 1) && (i >= 1 ==> EndsBy(fl, h, i - 1));
      }
    }
  }

  /** Units clear of the list and of b stay clear once b is inserted. */
  lemma InsertOff(fl: seq<Blk>, t: nat, b: Blk, a: nat, n: nat, l: seq<Blk>)
    requires Good(fl) && Between(fl, t, b) && b.size >= 1 && n >= 1 && l == Insert(fl, t, b)
    requires Off(fl, a, n) && (a + n <= b.addr || b.addr + b.size <= a)
    ensures Off(l, a, n)
  {
    assert OffEntry(fl, a, n, t) && OffEntry(fl, a, n, t + 1) && Real(fl, t) && Real(fl, t + 1);
    forall i: nat
      ensures OffEntry(l, a, n, i)
    {
      if i < |l| {
        InsertAt(fl, t, b, l, i);
        assert OffEntry(fl, a, n, i) && OffEntry(fl, a, n, i + 1) && (i >= 1 ==> OffEntry(fl, a, n, i - 1));
      }
    }
  }

  lemma FreeListed(ptr: seq<nat>, size: seq<nat>, fl: seq<Blk>, t: nat, b: Blk, p: nat, freep: nat)
    requires Listed(ptr, size, fl, freep) && Fits(fl, t, b) && 1 <= b.addr < |ptr| && size[b.addr] == b.size >= 1
    requires b.addr + b.size <= |ptr| && p == fl[t].addr
    ensures p < |ptr| && ptr[p] < |ptr|
    ensures Listed(FreedPtr(ptr, size, p, b.addr), FreedSize(ptr, size, p, b.addr), Insert(fl, t, b), p)
  {
    FreeRing(ptr, size, fl, t, b, p);
    InsertGood(fl, t, b);
    InsertEntry(fl, t, b, Insert(fl, t, b));
    assert IsEntry(Insert(fl, t, b), p, t);
    InsertBelow(fl, t, b, |ptr|, Insert(fl, t, b));
  }

  /** Freeing a live block: everything else keeps its place and its size. */
  lemma FreeKeepsLive(size: seq<nat>, size': seq<nat>, fl: seq<Blk>, live: map<nat, nat>, t: nat, b: Blk, l: seq<Blk>,
                      live': map<nat, nat>)
    requires Good(fl) && LiveOk(size, fl, live) && b.addr in live && b.size == live[b.addr] && |size'| == |size|
    requires
      && Between(fl, t, b) && SameBut(size, size', b.addr, fl[t].addr) && l == Insert(fl, t, b)
      && live' == live - {b.addr}
    ensures LiveOk(size', l, live')
  {
    assert Held(size, live, b.addr);
    forall a: nat
      ensures Held(size', live', a) && NotFree(l, live', a)
    {
      assert Held(size, live, a) && NotFree(fl, live, a) && Separate(live, a, b.addr);
      if a in live' {
        LiveStays(size, size', fl, t, b, a, live[a], l);
      }
    }
    forall a: nat, c: nat
      ensures Separate(live', a, c)
    {
      assert Separate(live, a, c);
    }
  }

  lemma LiveStays(size: seq<nat>, size': seq<nat>, fl: seq<Blk>, t: nat, b: Blk, a: nat, n: nat, l: seq<Blk>)
    requires Good(fl) && Between(fl, t, b) && b.size >= 1 && n >= 1 && a < |size| && a >= 1 && l == Insert(fl, t, b)
    requires Off(fl, a, n) && (a + n <= b.addr || b.addr + b.size <= a) && SameBut(size, size', b.addr, fl[t].addr)
    ensures Off(l, a, n) && a < |size'| && size'[a] == size[a]
  {
    assert OffEntry(fl, a, n, t) && Real(fl, t) && Same(size, size', a);
    InsertOff(fl, t, b, a, n, l);
  }

  lemma FreeConserves(fl: seq<Blk>, live: map<nat, nat>, owned: iset<nat>, t: nat, b: Blk, live': map<nat, nat>)
    requires
      && Conserved(fl, live, owned) && b.addr in live && b.size == live[b.addr] && t < |fl| && live' == live - {b.addr}
    ensures Conserved(Insert(fl, t, b), live', owned)
  {
    forall u: nat
      ensures Accounted(Insert(fl, t, b), live', owned, u)
    {
      InsertCovers(fl, t, b, u);
      assert Accounted(fl, live, owned, u);
      InLiveLess(live, b.addr, live', u);
      assert b.Has(u) <==> Within(live, b.addr, u);
    }
  }

  lemma InLiveLess(live: map<nat, nat>, bp: nat, live': map<nat, nat>, u: nat)
    requires bp in live && live' == live - {bp}
    ensures InLive(live, u) <==> InLive(live', u) || Within(live, bp, u)
  {
    if InLive(live, u) {
      var a: nat :| Within(live, a, u);
      assert a == bp || Within(live', a, u);
    }
    if InLive(live', u) {
      var a: nat :| Within(live', a, u);
      assert Within(live, a, u);
    }
  }

  lemma InLiveMore(live: map<nat, nat>, c: nat, n: nat, live': map<nat, nat>, u: nat)
    requires c !in live && live' == live[c := n]
    ensures InLive(live', u) <==> InLive(live, u) || c <= u < c + n
  {
    assert Within(live', c, u) <==> c <= u < c + n;
    if InLive(live, u) {
      var a: nat :| Within(live, a, u);
      assert Within(live', a, u);
    }
    if InLive(live', u) {
      var a: nat :| Within(live', a, u);
      assert a == c || Within(live, a, u);
    }
  }

  /** Fresh memory from sbrk joins the list and the owned units together. */
  lemma GrowConserves(fl: seq<Blk>, live: map<nat, nat>, owned: iset<nat>, t: nat, b: Blk, owned': iset<nat>)
    requires Conserved(fl, live, owned) && t < |fl| && owned' == owned + iset u: nat | b.Has(u)
    ensures Conserved(Insert(fl, t, b), live, owned')
  {
    forall u: nat
      ensures Accounted(Insert(fl, t, b), live, owned', u)
    {
      InsertCovers(fl, t, b, u);
      assert Accounted(fl, live, owned, u);
    }
  }

  lemma GrowKeepsLive(size: seq<nat>, size': seq<nat>, fl: seq<Blk>, live: map<nat, nat>, t: nat, b: Blk, l: seq<Blk>)
    requires Good(fl) && LiveOk(size, fl, live) && b.addr >= 1 && b.size >= 1 && Between(fl, t, b)
    requires Clear(fl, live, b.addr) && SameBut(size, size', b.addr, fl[t].addr) && l == Insert(fl, t, b)
    ensures LiveOk(size', l, live)
  {
    forall a: nat
      ensures Held(size', live, a) && NotFree(l, live, a)
    {
      assert Held(size, live, a) && NotFree(fl, live, a) && LiveBy(live, b.addr, a);
      if a in live {
        LiveStays(size, size', fl, t, b, a, live[a], l);
      }
    }
  }

  lemma ListedExtend(ptr: seq<nat>, size: seq<nat>, ptr': seq<nat>, size': seq<nat>, fl: seq<Blk>, freep: nat)
    requires Listed(ptr, size, fl, freep) && |ptr'| == |size'| && Extends(ptr, ptr') && Extends(size, size')
    ensures Listed(ptr', size', fl, freep)
  {
    forall i: nat
      ensures Spelled(ptr', size', fl, i) && EndsBy(fl, |ptr'|, i)
    {
      assert Spelled(ptr, size, fl, i) && EndsBy(fl, |ptr|, i);
      assert i < |fl| ==> Same(ptr, ptr', fl[i].addr) && Same(size, size', fl[i].addr);
    }
  }

  /** More memory above everything in use leaves the heap as it was. */
  lemma ExtendKeeps(ptr: seq<nat>, size: seq<nat>, ptr': seq<nat>, size': seq<nat>, fl: seq<Blk>, freep: nat,
                    live: map<nat, nat>, owned: iset<nat>, h: nat)
    requires HeapOk(ptr, size, fl, freep, live, owned) && |ptr'| == |size'| && h >= |size|
    requires Extends(size, size') && Extends(ptr, ptr')
    ensures HeapOk(ptr', size', fl, freep, live, owned) && Clear(fl, live, h)
  {
    ListedExtend(ptr, size, ptr', size', fl, freep);
    forall a: nat
      ensures Held(size', live, a) && LiveBy(live, h, a)
    {
      assert Held(size, live, a) && Same(size, size', a);
    }
    forall i: nat
      ensures EndsBy(fl, h, i)
    {
      assert EndsBy(fl, |ptr|, i);
    }
  }

  // -------------------------------------------------- malloc()'s carving

  /** Headers after malloc() takes n units from the entry at p. */
  function TakenPtr(ptr: seq<nat>, size: seq<nat>, prevp: nat, p: nat, n: nat): seq<nat>
    requires |ptr| == |size| && prevp < |ptr| && p < |ptr|
  {
    if size[p] == n then ptr[prevp := ptr[p]] else ptr
  }

  function TakenSize(size: seq<nat>, p: nat, n: nat): seq<nat>
    requires p < |size| && n <= size[p] && p + size[p] <= |size| && n >= 1
  {
    if size[p] == n then size else size[p := size[p] - n][p + (size[p] - n) := n]
  }

  /** Writing a header inside a free block, off its start, disturbs no list entry. */
  lemma RingWrite(ptr: seq<nat>, size: seq<nat>, fl: seq<Blk>, a: nat, n: nat, size': seq<nat>)
    requires Ring(ptr, size, fl) && a < |size| && size' == size[a := n]
    requires forall i: nat {:trigger Misses(fl, a, i)} :: Misses(fl, a, i)
    ensures Ring(ptr, size', fl)
  {
    forall i: nat
      ensures Spelled(ptr, size', fl, i)
    {
      assert Spelled(ptr, size, fl, i) && Misses(fl, a, i);
    }
  }

  predicate Misses(fl: seq<Blk>, a: nat, i: nat) { i < |fl| ==> fl[i].addr != a }

  /** Entry k gives up n of its units; the carved block gets its own header. */
  lemma RingShrink(ptr: seq<nat>, size: seq<nat>, fl: seq<Blk>, k: nat, n: nat, c: nat, size': seq<nat>)
    requires
      && Ring(ptr, size, fl) && Good(fl) && k < |fl| && 1 <= n < fl[k].size
      && c + n == fl[k].addr + fl[k].size <= |size|
    requires size' == size[fl[k].addr := fl[k].size - n][c := n]
    ensures Ring(ptr, size', Take(fl, k, n))
  {
    GoodRises(fl);
    var m := Blk(fl[k].addr, fl[k].size - n);
    var mid := size[m.addr := m.size];
    var l := Take(fl, k, n);
    RingResize(ptr, size, fl, k, m, mid, l);
    forall i: nat
      ensures Misses(l, c, i)
    {
      assert Before(fl, i, k) && Before(fl, k, i);
    }
    RingWrite(ptr, mid, l, c, n, size');
  }

  lemma TakeRing(ptr: seq<nat>, size: seq<nat>, fl: seq<Blk>, k: nat, n: nat, q: nat, p: nat)
    requires
      && Ring(ptr, size, fl) && Good(fl) && 1 <= k < |fl| && 1 <= n <= fl[k].size && fl[k].addr + fl[k].size <= |size|
    requires q == fl[k - 1].addr && p == fl[k].addr
    ensures q < |ptr| && p < |ptr| && size[p] == fl[k].size
    ensures Ring(TakenPtr(ptr, size, q, p, n), TakenSize(size, p, n), Take(fl, k, n))
  {
    assert Spelled(ptr, size, fl, k) && Spelled(ptr, size, fl, k - 1);
    if size[p] == n {
      GoodRises(fl);
      RingUnlink(ptr, size, fl, k - 1, TakenPtr(ptr, size, q, p, n), Take(fl, k, n));
    } else {
      RingShrink(ptr, size, fl, k, n, p + (size[p] - n), TakenSize(size, p, n));
    }
  }

  /** Each entry of the new list is an old one or the rest of the entry cut. */
  lemma TakeAt(fl: seq<Blk>, k: nat, n: nat, l: seq<Blk>, i: nat)
    requires k < |fl| && n <= fl[k].size && l == Take(fl, k, n) && i < |l|
    ensures
      || (i < k && l[i] == fl[i]) || (i > k && i < |fl| && l[i] == fl[i])
      || (i >= k && i + 1 < |fl| && l[i] == fl[i + 1])
         || (i == k && n < fl[k].size && l[i] == Blk(fl[k].addr, fl[k].size - n))
  {
  }

  lemma TakeBelow(fl: seq<Blk>, k: nat, n: nat, h: nat, l: seq<Blk>)
    requires 1 <= k < |fl| && n <= fl[k].size && Below(fl, h) && l == Take(fl, k, n)
    ensures Below(l, h) && k - 1 < |l| && l[k - 1] == fl[k - 1]
  {
    forall i: nat
      ensures EndsBy(l, h, i)
    {
      if i < |l| {
        TakeAt(fl, k, n, l, i);
        assert EndsBy(fl, h, i) && EndsBy(fl, h, i + 1);
      }
    }
  }

  /** Units clear of the list stay clear, and the carved block is clear of the rest. */
  lemma TakeOff(fl: seq<Blk>, k: nat, n: nat, a: nat, m: nat, l: seq<Blk>)
    requires Good(fl) && 1 <= k < |fl| && 1 <= n <= fl[k].size && m >= 1 && l == Take(fl, k, n)
    requires (a + n == fl[k].addr + fl[k].size && m == n) || Off(fl, a, m)
    ensures Off(l, a, m)
  {
    forall i: nat
      ensures OffEntry(l, a, m, i)
    {
      if i < |l| {
        TakeAt(fl, k, n, l, i);
        if Off(fl, a, m) {
          assert OffEntry(fl, a, m, i) && OffEntry(fl, a, m, i + 1);
        } else {
          assert Before(fl, i, k) && Before(fl, k, i) && Before(fl, k, i + 1);
        }
      }
    }
  }

  /** A live block is no part of the entry being cut, so it keeps its header. */
  lemma LiveUncut(size: seq<nat>, size': seq<nat>, fl: seq<Blk>, k: nat, n: nat, c: nat, a: nat, m: nat, l: seq<Blk>)
    requires
      && Good(fl) && 1 <= k < |fl| && 1 <= n <= fl[k].size && c + n == fl[k].addr + fl[k].size && l == Take(fl, k, n)
    requires Off(fl, a, m) && m >= 1 && a < |size| && SameBut(size, size', fl[k].addr, c)
    ensures a != c && Off(l, a, m) && a < |size'| && size'[a] == size[a] && (a + m <= c || c + n <= a)
  {
    assert OffEntry(fl, a, m, k) && Same(size, size', a);
    TakeOff(fl, k, n, a, m, l);
  }

  lemma TakeKeepsLive(size: seq<nat>, size': seq<nat>, fl: seq<Blk>, live: map<nat, nat>, k: nat, n: nat, c: nat,
                      l: seq<Blk>, live': map<nat, nat>)
    requires Good(fl) && LiveOk(size, fl, live) && 1 <= k < |fl| && 1 <= n <= fl[k].size
    requires c >= 1 && c + n == fl[k].addr + fl[k].size <= |size| && |size'| == |size| && size'[c] == n
    requires SameBut(size, size', fl[k].addr, c) && l == Take(fl, k, n) && live' == live[c := n]
    ensures c !in live && LiveOk(size', l, live')
  {
    TakeOff(fl, k, n, c, n, l);
    forall a: nat
      ensures a in live ==> a != c && (a + live[a] <= c || c + n <= a)
      ensures Held(size', live', a) && NotFree(l, live', a)
    {
      assert Held(size, live, a) && NotFree(fl, live, a);
      if a in live {
        LiveUncut(size, size', fl, k, n, c, a, live[a], l);
      }
    }
    forall a: nat, d: nat
      ensures Separate(live', a, d)
    {
      assert Separate(live, a, d);
    }
  }

  lemma TakeConserves(fl: seq<Blk>, live: map<nat, nat>, owned: iset<nat>, k: nat, n: nat, c: nat, live': map<nat, nat>)
    requires Good(fl) && Conserved(fl, live, owned) && 1 <= k < |fl| && 1 <= n <= fl[k].size
    requires c !in live && c + n == fl[k].addr + fl[k].size && live' == live[c := n]
    ensures Conserved(Take(fl, k, n), live', owned)
  {
    forall u: nat
      ensures Accounted(Take(fl, k, n), live', owned, u)
    {
      TakeCovers(fl, k, n, u);
      assert Accounted(fl, live, owned, u);
      InLiveMore(live, c, n, live', u);
      if c <= u < c + n {
        assert HasAt(fl, u, k);
      }
    }
  }

  lemma TakenSame(size: seq<nat>, p: nat, n: nat, c: nat)
    requires p < |size| && 1 <= n <= size[p] && c + n == p + size[p] <= |size|
    ensures
      && SameBut(size, TakenSize(size, p, n), p, c) && |TakenSize(size, p, n)| == |size|
      && TakenSize(size, p, n)[c] == n
  {
    forall a: nat | a != p && a != c
      ensures Same(size, TakenSize(size, p, n), a)
    {
    }
  }

  lemma TakeListed(ptr: seq<nat>, size: seq<nat>, fl: seq<Blk>, freep: nat, k: nat, n: nat, q: nat, p: nat)
    requires
      && Listed(ptr, size, fl, freep) && 1 <= k < |fl| && 1 <= n <= fl[k].size && q == fl[k - 1].addr && p == fl[k].addr
    ensures q < |ptr| && 1 <= p && p + fl[k].size <= |ptr| && size[p] == fl[k].size
    ensures Listed(TakenPtr(ptr, size, q, p, n), TakenSize(size, p, n), Take(fl, k, n), q)
  {
    assert EndsBy(fl, |ptr|, k) && Before(fl, 0, k);
    TakeGood(fl, k, n);
    TakeBelow(fl, k, n, |ptr|, Take(fl, k, n));
    assert IsEntry(Take(fl, k, n), q, k - 1);
    TakeRing(ptr, size, fl, k, n, q, p);
  }

  lemma TakeKeeps(ptr: seq<nat>, size: seq<nat>, fl: seq<Blk>, freep: nat, live: map<nat, nat>, owned: iset<nat>,
                  k: nat, n: nat, q: nat, p: nat, c: nat, live': map<nat, nat>)
    requires HeapOk(ptr, size, fl, freep, live, owned) && 1 <= k < |fl| && 1 <= n <= fl[k].size
    requires q == fl[k - 1].addr && p == fl[k].addr && c + n == p + fl[k].size && live' == live[c := n]
    ensures q < |ptr| && p + fl[k].size <= |ptr| == |size| && size[p] == fl[k].size && c !in live
    ensures HeapOk(TakenPtr(ptr, size, q, p, n), TakenSize(size, p, n), Take(fl, k, n), q, live', owned)
  {
    TakeListed(ptr, size, fl, freep, k, n, q, p);
    TakenSame(size, p, n, c);
    TakeKeepsLive(size, TakenSize(size, p, n), fl, live, k, n, c, Take(fl, k, n), live');
    TakeConserves(fl, live, owned, k, n, c, live');
  }

  // ------------------------------------------------------ request sizes

  const HEADER: nat := 16   // sizeof(Header)

  /** Units malloc looks for: the bytes rounded up, plus one for the header. */
  function UnitsFor(nbytes: nat): nat {
    (nbytes + HEADER - 1) / HEADER + 1
  }

  /** sbrk takes an int: the byte count nu * sizeof(Header) as 32-bit signed. */
  function SbrkArgument(nu: nat): int {
    var b := nu * HEADER % 0x1_0000_0000;
    if b >= 0x8000_0000 then b - 0x1_0000_0000 else b
  }

  /** The largest request whose sbrk argument is the byte count meant. */
  const MAX_REQUEST: nat := 0x8000_0000 - 32

  /** For a 32-bit nbytes, morecore asks sbrk for what it records in the header
      exactly up to MAX_REQUEST; beyond it the argument is too small or negative. */
  lemma SbrkArgumentExact(nbytes: nat)
    requires nbytes < 0x1_0000_0000
    ensures var nu := if UnitsFor(nbytes) < 4096 then 4096 else UnitsFor(nbytes);
      SbrkArgument(nu) == nu * HEADER <==> nbytes <= MAX_REQUEST
  {
  }

  // ------------------------------------------------------ walking the ring

  function NextIndex(k: nat, n: nat): (r: nat)
    requires k < n
    ensures r < n
  {
    if k + 1 < n then k + 1 else 0
  }

  /** Steps along the ring from entry k to entry f. */
  function Steps(k: nat, f: nat, n: nat): nat
    requires k < n && f < n
  {
    if k <= f then f - k else f + n - k
  }

  /** What a walk along the ring relies on at entry k. */
  predicate Walkable(ptr: seq<nat>, size: seq<nat>, fl: seq<Blk>, k: nat) {
    k < |fl| ==>
      && |ptr| == |size| && fl[k].addr < |ptr|
      && size[fl[k].addr] == fl[k].size && (k == 0 ==> fl[k].size == 0)
      && ptr[fl[k].addr] == fl[NextIndex(k, |fl|)].addr
  }

  ghost predicate Circular(ptr: seq<nat>, size: seq<nat>, fl: seq<Blk>, freep: nat) {
    && (forall k: nat {:trigger Walkable(ptr, size, fl, k)} :: Walkable(ptr, size, fl, k))
    && Rising(fl) && Entry(fl, freep)
  }

  lemma ListedCircular(ptr: seq<nat>, size: seq<nat>, fl: seq<Blk>, freep: nat)
    requires Listed(ptr, size, fl, freep)
    ensures Circular(ptr, size, fl, freep)
  {
    GoodRises(fl);
    forall k: nat
      ensures Walkable(ptr, size, fl, k)
    {
      assert Spelled(ptr, size, fl, k);
    }
  }

  lemma StepsNext(k: nat, f: nat, n: nat)
    requires k < n && f < n && k != f
    ensures Steps(NextIndex(k, n), f, n) == Steps(k, f, n) - 1
  {
  }

  lemma FreeKeeps(ptr: seq<nat>, size: seq<nat>, fl: seq<Blk>, freep: nat, live: map<nat, nat>, owned: iset<nat>,
                  ptr': seq<nat>, size': seq<nat>, fl': seq<Blk>, freep': nat, t: nat, b: Blk, live': map<nat, nat>)
    requires HeapOk(ptr, size, fl, freep, live, owned) && b.addr in live && b.size == live[b.addr] && |size'| == |size|
    requires Between(fl, t, b) && fl' == Insert(fl, t, b) && live' == live - {b.addr}
    requires SameBut(size, size', b.addr, fl[t].addr) && Listed(ptr', size', fl', freep')
    ensures HeapOk(ptr', size', fl', freep', live', owned)
  {
    FreeKeepsLive(size, size', fl, live, t, b, fl', live');
    FreeConserves(fl, live, owned, t, b, live');
  }

  lemma GrowKeeps(ptr: seq<nat>, size: seq<nat>, fl: seq<Blk>, freep: nat, live: map<nat, nat>, owned: iset<nat>,
                  ptr': seq<nat>, size': seq<nat>, fl': seq<Blk>, freep': nat, t: nat, b: Blk, owned': iset<nat>)
    requires HeapOk(ptr, size, fl, freep, live, owned) && b.addr >= 1 && b.size >= 1
    requires
      && Between(fl, t, b) && fl' == Insert(fl, t, b) && Clear(fl, live, b.addr)
      && owned' == owned + iset u: nat | b.Has(u)
    requires SameBut(size, size', b.addr, fl[t].addr) && Listed(ptr', size', fl', freep')
    ensures HeapOk(ptr', size', fl', freep', live, owned')
    ensures t < |fl'| && (fl'[t].size >= b.size || (t + 1 < |fl'| && fl'[t + 1].size >= b.size))
  {
    InsertEntry(fl, t, b, fl');
    GrowKeepsLive(size, size', fl, live, t, b, fl');
    GrowConserves(fl, live, owned, t, b, owned');
  }

  predicate Enough(fl: seq<Blk>, n: nat, i: nat) { i < |fl| && fl[i].size >= n }

  /** A circuit from just after entry f that has reached entry k has passed entry i. */
  predicate Passed(f: nat, k: nat, i: nat) { if f < k then f < i < k else i < k || f < i }

  class Heap {
    var ptr: seq<nat>             // s.ptr of the header at each unit
    var size: seq<nat>            // s.size of the header at each unit
    var freep: nat
    var started: bool             // freep != 0
    ghost var fl: seq<Blk>        // the free list in address order
    ghost var live: map<nat, nat> // blocks handed out by malloc
    ghost var owned: iset<nat>    // units obtained from sbrk

    /** Once malloc has run: the list, the live blocks and the units they make up. */
    ghost predicate Valid()
      reads this
    {
      && |ptr| == |size| >= 1
      && (if started then HeapOk(ptr, size, fl, freep, live, owned) else live == map[] && owned == iset{})
    }

    constructor ()
      ensures Valid() && live == map[] && owned == iset{}
    {
      ptr, size, freep, started := [0], [0], 0, false;
      fl, live, owned := [], map[], iset{};
    }

    /** free()'s search: the entry after which a block at bp belongs. */
    method Search(bp: nat, ghost t: nat) returns (p: nat)
      requires Circular(ptr, size, fl, freep) && t < |fl| && fl[t].addr < bp && (t + 1 < |fl| ==> bp < fl[t + 1].addr)
      ensures p == fl[t].addr
    {
      ghost var k: nat :| IsEntry(fl, freep, k);
      ghost var n := |fl|;
      p := freep;
      assert Walkable(ptr, size, fl, k);
      while !(bp > p && bp < ptr[p])
        invariant k < n && p == fl[k].addr && Walkable(ptr, size, fl, k)
        decreases Steps(k, t, n)
      {
        if p >= ptr[p] && (bp > p || bp < ptr[p]) {
          break;
        }
        assert Lower(fl, 0, t) && Lower(fl, k, k + 1);
        StepsNext(k, t, n);
        p := ptr[p];
        k := NextIndex(k, n);
        assert Walkable(ptr, size, fl, k);
      }
      assert Lower(fl, t + 1, k) && Lower(fl, k + 1, t) && Lower(fl, 0, t) && Lower(fl, k, k + 1);
    }

    /** free()'s header updates, once the search has found p. */
    method Relink(p: nat, bp: nat)
      requires |ptr| == |size| && p < |ptr| && bp < |ptr| && ptr[p] < |ptr| && p != bp
      modifies this`ptr, this`size
      ensures ptr == FreedPtr(old(ptr), old(size), p, bp)
      ensures size == FreedSize(old(ptr), old(size), p, bp)
    {
      var nxt := ptr[p];
      if bp + size[bp] == nxt {
        size := size[bp := size[bp] + size[nxt]];
        ptr := ptr[bp := ptr[nxt]];
      } else {
        ptr := ptr[bp := nxt];
      }
      if p + size[p] == bp {
        size := size[p := size[p] + size[bp]];
        ptr := ptr[p := ptr[bp]];
      } else {
        ptr := ptr[p := bp];
      }
    }

    /** free() on a block that is on no list: walk to its place and splice it in. */
    method Splice(bp: nat, ghost b: Blk) returns (ghost t: nat)
      requires
        && Listed(ptr, size, fl, freep) && 1 <= bp < |size| && b.addr == bp && size[bp] == b.size >= 1
        && bp + b.size <= |size|
      requires Off(fl, b.addr, b.size)
      modifies this`ptr, this`size, this`freep, this`fl
      ensures Between(old(fl), t, b) && fl == Insert(old(fl), t, b) && Listed(ptr, size, fl, freep)
      ensures |size| == |old(size)| && SameBut(old(size), size, b.addr, old(fl)[t].addr)
      ensures SameBut(old(ptr), ptr, b.addr, old(fl)[t].addr)
    {
      t := Place(fl, |fl|, b);
      ListedCircular(ptr, size, fl, freep);
      var p := Search(bp, t);
      FreeListed(ptr, size, fl, t, b, p, freep);
      FreedSame(ptr, size, p, bp);
      Relink(p, bp);
      freep := p;
      fl := Insert(fl, t, b);
    }

    /** Return a block malloc handed out. */
    method Free(ap: nat)
      requires Valid() && ap >= 1 && ap - 1 in live
      modifies this
      ensures Valid() && started && owned == old(owned)
      ensures live == old(live) - {ap - 1}
      ensures Intact(old(ptr), ptr, live) && Intact(old(size), size, live)
    {
      var bp := ap - 1;
      ghost var b := Blk(bp, live[bp]);
      assert Held(size, live, bp) && NotFree(fl, live, bp);
      ghost var t := Splice(bp, b);
      ghost var less := live - {bp};
      FreeKeeps(old(ptr), old(size), old(fl), old(freep), live, owned, ptr, size, fl, freep, t, b, less);
      FreeIntact(old(ptr), ptr, old(size), old(fl), live, bp, t, less);
      FreeIntact(old(size), size, old(size), old(fl), live, bp, t, less);
      live := less;
    }

    /** sbrk: refuses, or yields nu units at or above everything seen so far. */
    method Sbrk(nu: nat) returns (ok: bool, a: nat)
      requires |ptr| == |size|
      modifies this`ptr, this`size
      ensures |ptr| == |size| >= |old(size)| && a >= |old(size)|
      ensures if ok then |size| == a + nu else ptr == old(ptr) && size == old(size)
      ensures Extends(old(ptr), ptr) && Extends(old(size), size)
    {
      var gap: int := *;
      gap := if gap < 0 then 0 else gap;
      a := |ptr| + gap;
      ok := *;
      if ok {
        ptr := ptr + seq(gap + nu, _ => 0);
        size := size + seq(gap + nu, _ => 0);
      }
    }

    /** Obtain nu units and write their header; the heap is otherwise untouched. */
    method Obtain(nu: nat) returns (ok: bool, hp: nat)
      requires HeapOk(ptr, size, fl, freep, live, owned) && |size| >= 1 && nu >= 1
      modifies this`ptr, this`size
      ensures HeapOk(ptr, size, fl, freep, live, owned)
      ensures !ok ==> ptr == old(ptr) && size == old(size)
      ensures ok ==> hp >= 1 && |size| == hp + nu && size[hp] == nu && Clear(fl, live, hp)
      ensures ok ==> Intact(old(ptr), ptr, live) && Intact(old(size), size, live)
    {
      ok, hp := Sbrk(nu);
      if ok {
        ghost var got := size;
        size := size[hp := nu];
        assert Extends(old(size), size) by {
          forall a: nat
            ensures Same(old(size), size, a)
          {
            assert Same(old(size), got, a);
          }
        }
        ExtendKeeps(old(ptr), old(size), ptr, size, fl, freep, live, owned, hp);
        ExtendIntact(old(ptr), ptr, old(size), fl, live);
        ExtendIntact(old(size), size, old(size), fl, live);
      }
    }

    /** Put a fresh block above everything else on the free list. */
    method Donate(hp: nat, ghost b: Blk) returns (ghost j: nat)
      requires HeapOk(ptr, size, fl, freep, live, owned) && Clear(fl, live, hp) && b.addr == hp
      requires 1 <= hp < |size| && size[hp] == b.size >= 1 && hp + b.size <= |size|
      modifies this`ptr, this`size, this`freep, this`fl, this`owned
      ensures HeapOk(ptr, size, fl, freep, live, owned) && |size| == |old(size)|
      ensures owned == old(owned) + iset u: nat | b.Has(u)
      ensures Enough(fl, b.size, j)
      ensures Intact(old(ptr), ptr, live) && Intact(old(size), size, live)
    {
      assert Off(fl, b.addr, b.size) by {
        forall i: nat
          ensures OffEntry(fl, b.addr, b.size, i)
        {
          assert EndsBy(fl, hp, i);
        }
      }
      ghost var t := Splice(hp, b);
      ghost var more := owned + iset u: nat | b.Has(u);
      GrowKeeps(old(ptr), old(size), old(fl), old(freep), live, owned, ptr, size, fl, freep, t, b, more);
      GrowIntact(old(ptr), ptr, old(size), old(fl), live, hp, t);
      GrowIntact(old(size), size, old(size), old(fl), live, hp, t);
      owned := more;
      j := if fl[t].size >= b.size then t else t + 1;
    }

    /** Ask for at least 4096 units; on success the list gains a block of at least n
        units. */
    method Morecore(n: nat) returns (ok: bool, ghost j: nat)
      requires HeapOk(ptr, size, fl, freep, live, owned) && |size| >= 1 && n >= 1
      modifies this`ptr, this`size, this`freep, this`fl, this`owned
      ensures HeapOk(ptr, size, fl, freep, live, owned) && |ptr| == |size| >= 1 && old(owned) <= owned
      ensures !ok ==>
        fl == old(fl) && freep == old(freep) && ptr == old(ptr) && size == old(size) && owned == old(owned)
      ensures ok ==> Enough(fl, n, j)
      ensures ok ==> Intact(old(ptr), ptr, live) && Intact(old(size), size, live)
    {
      var nu := n;
      if nu < 4096 {
        nu := 4096;
      }
      j := 0;
      var hp;
      ok, hp := Obtain(nu);
      if !ok {
        return;
      }
      ghost var ptr1, size1 := ptr, size;
      j := Donate(hp, Blk(hp, nu));
      IntactTwice(old(ptr), ptr1, ptr, live);
      IntactTwice(old(size), size1, size, live);
    }

    /** malloc()'s header updates on taking n units from the block at p0. */
    method CutHeaders(prevp: nat, p0: nat, n: nat) returns (p: nat)
      requires |ptr| == |size| && prevp < |ptr| && p0 < |ptr| && 1 <= n <= size[p0] && p0 + size[p0] <= |size|
      modifies this`ptr, this`size
      ensures ptr == TakenPtr(old(ptr), old(size), prevp, p0, n)
      ensures size == TakenSize(old(size), p0, n)
      ensures p == p0 + old(size)[p0] - n
    {
      p := p0;
      if size[p] == n {
        ptr := ptr[prevp := ptr[p]];
      } else {
        size := size[p := size[p] - n];
        p := p + size[p];
        size := size[p := n];
      }
    }

    /** Hand out n units of the entry after prevp. */
    method Carve(prevp: nat, p0: nat, n: nat, ghost k: nat) returns (a: nat)
      requires HeapOk(ptr, size, fl, freep, live, owned) && 1 <= k < |fl| && 1 <= n <= fl[k].size
      requires fl[k].addr == p0 && fl[k - 1].addr == prevp
      modifies this`ptr, this`size, this`freep, this`fl, this`live
      ensures HeapOk(ptr, size, fl, freep, live, owned) && |ptr| == |size| >= 1
      ensures a !in old(live) && live == old(live)[a := n]
      ensures Intact(old(ptr), ptr, old(live)) && Intact(old(size), size, old(live))
    {
      ghost var c := p0 + fl[k].size - n;
      ghost var more := live[c := n];
      TakeKeeps(ptr, size, fl, freep, live, owned, k, n, prevp, p0, c, more);
      TakenIntact(ptr, size, fl, freep, live, owned, k, n, prevp, p0);
      a := CutHeaders(prevp, p0, n);
      freep := prevp;
      fl := Take(fl, k, n);
      live := more;
    }

    /** The first call makes `base` the whole list. */
    method Start()
      requires Valid() && !started
      modifies this`ptr, this`size, this`freep, this`fl, this`started
      ensures Valid() && started && fl == [Blk(0, 0)] && freep == 0 && |size| == |old(size)|
    {
      ptr, size := ptr[0 := 0], size[0 := 0];
      freep, started := 0, true;
      fl := [Blk(0, 0)];
      assert IsEntry(fl, 0, 0);
      forall u: nat
        ensures Accounted(fl, live, owned, u)
      {
        assert fl[..0] == [];
      }
    }

    /** One circuit of malloc()'s search: from the entry after freep up to freep itself,
        stopping at the first block that is large enough. */
    method Circuit(nunits: nat) returns (found: bool, prevp: nat, p: nat, ghost k: nat)
      requires Circular(ptr, size, fl, freep) && nunits >= 1
      ensures found ==> 1 <= k < |fl| && fl[k].addr == p && fl[k - 1].addr == prevp && fl[k].size >= nunits
      ensures !found ==> forall i: nat {:trigger Enough(fl, nunits, i)} :: !Enough(fl, nunits, i)
    {
      ghost var f: nat :| IsEntry(fl, freep, f);
      ghost var n := |fl|;
      assert Walkable(ptr, size, fl, f);
      prevp := freep;
      p := ptr[prevp];
      k := NextIndex(f, n);
      while true
        invariant k < n && fl[k].addr == p && (k >= 1 ==> fl[k - 1].addr == prevp)
        invariant forall i: nat {:trigger Enough(fl, nunits, i)} :: Passed(f, k, i) ==> !Enough(fl, nunits, i)
        decreases Steps(k, f, n)
      {
        assert Walkable(ptr, size, fl, k);
        if size[p] >= nunits {
          return true, prevp, p, k;
        }
        assert Lower(fl, k, f) && Lower(fl, f, k) && !Enough(fl, nunits, k);
        if p == freep {
          return false, prevp, p, k;
        }
        StepsNext(k, f, n);
        prevp := p;
        p := ptr[p];
        k := NextIndex(k, n);
      }
    }

    /** Find or obtain a block of at least nbytes; null when sbrk refuses. The search
        goes once round the ring, and at most once more after growing the heap. */
    method Malloc(nbytes: nat) returns (ok: bool, ap: nat)
      requires Valid() && nbytes <= MAX_REQUEST
      modifies this
      ensures Valid() && started && old(owned) <= owned
      ensures !ok ==>
        && live == old(live) && owned == old(owned)
        && forall i: nat {:trigger Enough(fl, UnitsFor(nbytes), i)} :: !Enough(fl, UnitsFor(nbytes), i)
      ensures ok ==> ap >= 1 && ap - 1 !in old(live) && live == old(live)[ap - 1 := UnitsFor(nbytes)]
      ensures ok ==> (live[ap - 1] - 1) * HEADER >= nbytes
      ensures Intact(old(ptr), ptr, old(live)) && Intact(old(size), size, old(live))
    {
      var nunits := (nbytes + HEADER - 1) / HEADER + 1;
      if started {
        ExtendIntact(ptr, ptr, size, fl, live);
        ExtendIntact(size, size, size, fl, live);
      } else {
        Start();
      }
      ghost var grown := false;
      while true
        invariant HeapOk(ptr, size, fl, freep, live, owned) && |ptr| == |size| >= 1
        invariant started && live == old(live) && old(owned) <= owned
        invariant Intact(old(ptr), ptr, live) && Intact(old(size), size, live)
        invariant if grown then exists j: nat :: Enough(fl, nunits, j) else owned == old(owned)
        decreases !grown
      {
        var found, prevp, p;
        ghost var k;
        ListedCircular(ptr, size, fl, freep);
        found, prevp, p, k := Circuit(nunits);
        if found {
          ghost var ptr1, size1 := ptr, size;
          ap := Carve(prevp, p, nunits, k);
          IntactTwice(old(ptr), ptr1, ptr, old(live));
          IntactTwice(old(size), size1, size, old(live));
          ap := ap + 1;
          return true, ap;
        }
        var more;
        ghost var j;
        ghost var ptr2, size2 := ptr, size;
        more, j := Morecore(nunits);
        if !more {
          return false, 0;
        }
        IntactTwice(old(ptr), ptr2, ptr, live);
        IntactTwice(old(size), size2, size, live);
        grown := true;
      }
    }
  }
}
