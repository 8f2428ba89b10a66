/** The virtio disk driver: descriptors, the available and used rings with their
    16-bit indices, and the device as a set of steps that may come at any time
    between the driver's critical sections. */
module Virtio {
  import opened Common
  import opened Blocks

  const NUM: nat := 8
  const IDX_LIMIT: nat := 65536   // ring indices are 16 bits wide

  /** What a descriptor's address field can name. */
  datatype Addr = Null | OpAt(i: nat) | DataOf(b: nat) | StatusAt(i: nat)
  datatype Desc = Desc(addr: Addr, len: nat, toDevice: bool, more: bool, next: nat)
  datatype Op = Op(write: bool, sector: nat)
  datatype Info = Info(b: Option<nat>, status: nat)

  const NO_DESC: Desc := Desc(Null, 0, true, false, 0)

  /** Posted in the available ring; taken by the device; completed, with an entry
      in the used ring; cleared by the interrupt handler. */
  datatype Phase = Posted | Taken | Completed | Cleared
  datatype Request = Request(b: nat, write: bool, sector: nat, mid: nat, last: nat, phase: Phase)

  type Requests = map<nat, Request>   // outstanding requests by head descriptor

  /** The three descriptors of a request. */
  function Triple(h: nat, r: Request): set<nat> { {h, r.mid, r.last} }

  // Each invariant is a quantifier over a predicate of one element, and is used by
  // naming that element.

  predicate InUse(free: seq<bool>, owner: map<nat, nat>, i: nat) { i < |free| ==> (i in owner <==> !free[i]) }

  predicate Holder(reqs: Requests, owner: map<nat, nat>, i: nat) {
    i in owner ==> i < NUM && owner[i] in reqs && i in Triple(owner[i], reqs[owner[i]])
  }

  predicate Placed(reqs: Requests, owner: map<nat, nat>, h: nat) {
    h in reqs ==> (
      var r := reqs[h];
      && h != r.mid && h != r.last && r.mid != r.last
      && h in owner && r.mid in owner && r.last in owner
      && owner[h] == h && owner[r.mid] == h && owner[r.last] == h)
  }

  /** Each descriptor in use belongs to one request, which uses three of them. */
  ghost predicate Owns(free: seq<bool>, reqs: Requests, owner: map<nat, nat>) {
    && |free| == NUM
    && (forall i: nat {:trigger InUse(free, owner, i)} :: InUse(free, owner, i))
    && (forall i: nat {:trigger Holder(reqs, owner, i)} :: Holder(reqs, owner, i))
    && (forall h: nat {:trigger Placed(reqs, owner, h)} :: Placed(reqs, owner, h))
  }

  /** The descriptors, header and bookkeeping of a request are as virtio_disk_rw wrote them. */
  predicate Formatted(desc: seq<Desc>, ops: seq<Op>, info: seq<Info>, h: nat, r: Request) {
    && |desc| == |ops| == |info| == NUM && h < NUM && r.mid < NUM && r.last < NUM
    && desc[h] == Desc(OpAt(h), 16, true, true, r.mid)
    && desc[r.mid] == Desc(DataOf(r.b), BSIZE, r.write, true, r.last)
    && desc[r.last] == Desc(StatusAt(h), 1, false, false, 0)
    && ops[h] == Op(r.write, r.sector)
    && info[h] == Info(Some(r.b), if r.phase.Completed? || r.phase.Cleared? then 0 else 0xff)
  }

  predicate Kept(desc: seq<Desc>, ops: seq<Op>, info: seq<Info>, reqs: Requests, h: nat) {
    h in reqs ==> Formatted(desc, ops, info, h, reqs[h])
  }

  ghost predicate Intact(desc: seq<Desc>, ops: seq<Op>, info: seq<Info>, reqs: Requests) {
    && |desc| == |ops| == |info| == NUM
    && forall h: nat {:trigger Kept(desc, ops, info, reqs, h)} :: Kept(desc, ops, info, reqs, h)
  }

  predicate OwnBuffer(reqs: Requests, h: nat, g: nat) { h in reqs && g in reqs && h != g ==> reqs[h].b != reqs[g].b }

  predicate MarkOk(owned: set<nat>, reqs: Requests, h: nat) {
    h in reqs ==> (reqs[h].b in owned <==> !reqs[h].phase.Cleared?)
  }

  /** Distinct requests are for distinct buffers; a buffer is marked exactly until its request is cleared. */
  ghost predicate Marks(owned: set<nat>, reqs: Requests) {
    && (forall h: nat, g: nat {:trigger OwnBuffer(reqs, h, g)} :: OwnBuffer(reqs, h, g))
    && (forall h: nat {:trigger MarkOk(owned, reqs, h)} :: MarkOk(owned, reqs, h))
  }

  predicate Slotted(ring: seq<nat>, at: nat, q: seq<nat>, k: nat) {
    |ring| == NUM && (k < |q| ==> ring[(at + k) % NUM] == q[k])
  }

  /** The ring holds the queue q, whose first entry has absolute index at. */
  ghost predicate InRing(ring: seq<nat>, at: nat, q: seq<nat>) {
    |ring| == NUM && forall k: nat {:trigger Slotted(ring, at, q, k)} :: Slotted(ring, at, q, k)
  }

  predicate Entry(q: seq<nat>, reqs: Requests, p: Phase, k: nat) {
    k < |q| ==> q[k] < NUM && q[k] in reqs && reqs[q[k]].phase == p
  }

  predicate Member(q: seq<nat>, reqs: Requests, p: Phase, h: nat) { h in reqs && reqs[h].phase == p ==> h in q }

  predicate Once(q: seq<nat>, j: nat, k: nat) { j < k < |q| ==> q[j] != q[k] }

  /** q lists the outstanding requests in one phase, each once. */
  ghost predicate Lists(q: seq<nat>, reqs: Requests, p: Phase) {
    && (forall k: nat {:trigger Entry(q, reqs, p, k)} :: Entry(q, reqs, p, k))
    && (forall h: nat {:trigger Member(q, reqs, p, h)} :: Member(q, reqs, p, h))
    && (forall j: nat, k: nat {:trigger Once(q, j, k)} :: Once(q, j, k))
  }

  // -------------------------------------------------- 16-bit indices

  /** The ring position of a 16-bit index is that of the unbounded one. */
  lemma WrapPosition(n: nat)
    ensures n % IDX_LIMIT % NUM == n % NUM
  {
  }

  /** Fewer than 2^16 apart, two counters agree only when their 16-bit forms do. */
  lemma WrapEqual(a: nat, n: nat)
    requires n < IDX_LIMIT
    ensures a % IDX_LIMIT == (a + n) % IDX_LIMIT <==> n == 0
  {
  }

  /** Counting on in 16 bits. */
  lemma WrapNext(c: nat, n: nat, c': nat, n': nat)
    requires c == n % IDX_LIMIT && n' == n + 1 && c' == (c + 1) % IDX_LIMIT
    ensures c' == n' % IDX_LIMIT
  {
  }

  lemma Positions(at: nat, j: nat, k: nat)
    requires j < k < j + NUM
    ensures (at + j) % NUM != (at + k) % NUM
  {
  }

  /** Appending at the end of a ring that is not full overwrites nothing that is queued. */
  lemma Append(ring: seq<nat>, at: nat, q: seq<nat>, h: nat, ring': seq<nat>, q': seq<nat>)
    requires InRing(ring, at, q) && |q| < NUM && ring' == ring[(at + |q|) % NUM := h] && q' == q + [h]
    ensures InRing(ring', at, q')
  {
    forall k: nat
      ensures Slotted(ring', at, q', k)
    {
      if k < |q| {
        Positions(at, k, |q|);
        assert Slotted(ring, at, q, k);
      }
    }
  }

  lemma Advance(ring: seq<nat>, at: nat, q: seq<nat>, q': seq<nat>)
    requires InRing(ring, at, q) && |q| > 0 && q' == q[1..]
    ensures ring[at % NUM] == q[0] && InRing(ring, at + 1, q')
  {
    assert Slotted(ring, at, q, 0);
    var at' := at + 1;
    forall k: nat
      ensures Slotted(ring, at', q', k)
    {
      assert Slotted(ring, at, q, k + 1) && at' + k == at + (k + 1);
    }
  }

  // ---------------------------------------------------------- counting

  /** Distinct members of a set are at most as many as the set has. */
  lemma {:induction false} QueueRoom(q: seq<nat>, room: set<nat>)
    requires forall k :: 0 <= k < |q| ==> q[k] in room
    requires forall j, k :: 0 <= j < k < |q| ==> q[j] != q[k]
    ensures |q| <= |room|
    decreases |q|
  {
    if |q| > 0 {
      var rest, x := q[1..], q[0];
      forall k | 0 <= k < |rest|
        ensures rest[k] in room - {x}
      {
        assert rest[k] == q[k + 1];
      }
      QueueRoom(rest, room - {x});
    }
  }

  /** A queue that lacks descriptor h is not full. */
  lemma NotFull(q: seq<nat>, reqs: Requests, p: Phase, h: nat)
    requires Lists(q, reqs, p) && h < NUM && h !in q
    ensures |q| < NUM
  {
    forall k: nat | k < |q|
      ensures q[k] < NUM
    {
      assert Entry(q, reqs, p, k);
    }
    forall j: nat, k: nat | j < k < |q|
      ensures q[j] != q[k]
    {
      assert Once(q, j, k);
    }
    RoomLeft(q, h, NUM);
  }

  lemma RoomLeft(q: seq<nat>, h: nat, n: nat)
    requires
      && h < n && h !in q && (forall k :: 0 <= k < |q| ==> q[k] < n)
      && (forall j, k :: 0 <= j < k < |q| ==> q[j] != q[k])
    ensures |q| < n
  {
    QueueRoom(q, Below(n) - {h});
  }

  lemma QueueBound(q: seq<nat>, reqs: Requests, p: Phase)
    requires Lists(q, reqs, p)
    ensures |q| <= NUM
  {
    forall k: nat | k < |q|
      ensures q[k] in Below(NUM)
    {
      assert Entry(q, reqs, p, k);
    }
    forall j: nat, k: nat | j < k < |q|
      ensures q[j] != q[k]
    {
      assert Once(q, j, k);
    }
    QueueRoom(q, Below(NUM));
  }

  /** Free descriptors plus three for each outstanding request are all of them. */
  lemma {:induction false} Conservation(free: seq<bool>, reqs: Requests, owner: map<nat, nat>)
    requires Owns(free, reqs, owner)
    ensures |FreeOnes(free)| + 3 * |reqs| == NUM
  {
    forall h: nat
      ensures Within(reqs, owner, owner.Keys, h)
    {
      assert Placed(reqs, owner, h);
    }
    forall i: nat
      ensures Sourced(reqs, owner, owner.Keys, i)
    {
      assert Holder(reqs, owner, i);
    }
    CountTriples(reqs, owner, owner.Keys);
    forall i | i in owner
      ensures i < NUM
    {
      assert Holder(reqs, owner, i);
    }
    forall i: nat | i < NUM
      ensures i in FreeOnes(free) <==> i !in owner
    {
      assert InUse(free, owner, i);
    }
    Split(FreeOnes(free), owner.Keys, NUM);
  }

  ghost function FreeOnes(free: seq<bool>): set<nat> { set i: nat | i < |free| && free[i] }

  lemma Split(a: set<nat>, b: set<nat>, n: nat)
    requires a !! b && (forall i :: i in a || i in b ==> i < n) && forall i: nat :: i < n ==> i in a || i in b
    ensures |a| + |b| == n
  {
    assert a + b == Below(n);
  }

  lemma {:induction false} CountTriples(reqs: Requests, owner: map<nat, nat>, keys: set<nat>)
    requires forall h: nat {:trigger Within(reqs, owner, keys, h)} :: Within(reqs, owner, keys, h)
    requires forall i: nat {:trigger Sourced(reqs, owner, keys, i)} :: Sourced(reqs, owner, keys, i)
    ensures |keys| == 3 * |reqs|
    decreases |reqs|
  {
    if reqs == map[] {
      forall i: nat
        ensures i !in keys
      {
        assert Sourced(reqs, owner, keys, i);
      }
      assert keys == {};
    } else {
      var h :| h in reqs;
      var t := Triple(h, reqs[h]);
      var fewer, rest := reqs - {h}, keys - t;
      assert Within(reqs, owner, keys, h);
      TripleGone(reqs, owner, keys, h, fewer, rest);
      assert reqs.Keys == fewer.Keys + {h};
      CountTriples(fewer, owner, rest);
      assert keys == rest + t && |t| == 3;
    }
  }

  predicate Within(reqs: Requests, owner: map<nat, nat>, keys: set<nat>, h: nat) {
    Placed(reqs, owner, h) && (h in reqs ==> h in keys && reqs[h].mid in keys && reqs[h].last in keys)
  }

  predicate Sourced(reqs: Requests, owner: map<nat, nat>, keys: set<nat>, i: nat) {
    i in keys ==> i in owner && Holder(reqs, owner, i)
  }

  lemma TripleGone(reqs: Requests, owner: map<nat, nat>, keys: set<nat>, h: nat, fewer: Requests, rest: set<nat>)
    requires forall g: nat {:trigger Within(reqs, owner, keys, g)} :: Within(reqs, owner, keys, g)
    requires forall i: nat {:trigger Sourced(reqs, owner, keys, i)} :: Sourced(reqs, owner, keys, i)
    requires h in reqs && fewer == reqs - {h} && rest == keys - Triple(h, reqs[h])
    ensures forall g: nat {:trigger Within(fewer, owner, rest, g)} :: Within(fewer, owner, rest, g)
    ensures forall i: nat {:trigger Sourced(fewer, owner, rest, i)} :: Sourced(fewer, owner, rest, i)
  {
    assert Within(reqs, owner, keys, h);
    forall i: nat
      ensures Sourced(fewer, owner, rest, i)
    {
      assert Sourced(reqs, owner, keys, i);
    }
    forall g: nat
      ensures Within(fewer, owner, rest, g)
    {
      assert Within(reqs, owner, keys, g);
    }
  }

  // ---------------------------------------------- effects of whole steps

  /** A new request on three free descriptors. */
  lemma OwnMore(free: seq<bool>, reqs: Requests, owner: map<nat, nat>, h: nat, r: Request, free': seq<bool>,
                reqs': Requests, owner': map<nat, nat>)
    requires
      && Owns(free, reqs, owner) && h < NUM && r.mid < NUM && r.last < NUM && h != r.mid && h != r.last
      && r.mid != r.last
    requires free[h] && free[r.mid] && free[r.last]
    requires free' == free[h := false][r.mid := false][r.last := false] && reqs' == reqs[h := r]
    requires owner' == owner[h := h][r.mid := h][r.last := h]
    ensures h !in reqs && Owns(free', reqs', owner')
  {
    assert InUse(free, owner, h) && InUse(free, owner, r.mid) && InUse(free, owner, r.last) && Placed(reqs, owner, h);
    forall i: nat
      ensures InUse(free', owner', i) && Holder(reqs', owner', i)
    {
      assert InUse(free, owner, i) && Holder(reqs, owner, i);
    }
    forall g: nat
      ensures Placed(reqs', owner', g)
    {
      assert Placed(reqs, owner, g);
    }
  }

  /** A finished request's three descriptors freed. */
  lemma OwnLess(free: seq<bool>, reqs: Requests, owner: map<nat, nat>, h: nat, free': seq<bool>, reqs': Requests,
                owner': map<nat, nat>)
    requires Owns(free, reqs, owner) && h in reqs && h < NUM && reqs[h].mid < NUM && reqs[h].last < NUM
    requires free' == free[h := true][reqs[h].mid := true][reqs[h].last := true]
    requires reqs' == reqs - {h} && owner' == owner - Triple(h, reqs[h])
    ensures Owns(free', reqs', owner')
  {
    assert Placed(reqs, owner, h);
    forall i: nat
      ensures InUse(free', owner', i) && Holder(reqs', owner', i)
    {
      assert InUse(free, owner, i) && Holder(reqs, owner, i);
    }
    forall g: nat
      ensures Placed(reqs', owner', g)
    {
      assert Placed(reqs, owner, g);
    }
  }

  /** A step of one request's phase. */
  lemma OwnSame(free: seq<bool>, reqs: Requests, owner: map<nat, nat>, h: nat, p: Phase, reqs': Requests)
    requires Owns(free, reqs, owner) && h in reqs && reqs' == reqs[h := reqs[h].(phase := p)]
    ensures Owns(free, reqs', owner)
  {
    forall i: nat
      ensures Holder(reqs', owner, i) && Placed(reqs', owner, i)
    {
      assert Holder(reqs, owner, i) && Placed(reqs, owner, i);
    }
  }

  /** Stores to free descriptors, and to the header and bookkeeping of a free head, disturb no request. */
  lemma IntactMore(desc: seq<Desc>, ops: seq<Op>, info: seq<Info>, free: seq<bool>, reqs: Requests,
                   owner: map<nat, nat>, desc': seq<Desc>, ops': seq<Op>, info': seq<Info>, h: nat, r: Request,
                   reqs': Requests)
    requires Owns(free, reqs, owner) && Intact(desc, ops, info, reqs) && h < NUM && free[h]
    requires Formatted(desc', ops', info', h, r) && reqs' == reqs[h := r]
    requires forall k :: 0 <= k < NUM && !free[k] ==> desc'[k] == desc[k]
    requires forall k :: 0 <= k < NUM && k != h ==> ops'[k] == ops[k] && info'[k] == info[k]
    ensures Intact(desc', ops', info', reqs')
  {
    forall g: nat
      ensures Kept(desc', ops', info', reqs', g)
    {
      if g != h && g in reqs {
        assert Kept(desc, ops, info, reqs, g) && Placed(reqs, owner, g);
        assert InUse(free, owner, g) && InUse(free, owner, reqs[g].mid) && InUse(free, owner, reqs[g].last);
      }
    }
  }

  lemma StillIntact(desc: seq<Desc>, ops: seq<Op>, info: seq<Info>, free: seq<bool>, reqs: Requests,
                    owner: map<nat, nat>, desc': seq<Desc>)
    requires Owns(free, reqs, owner) && Intact(desc, ops, info, reqs) && |desc'| == NUM
    requires forall k :: 0 <= k < NUM && !free[k] ==> desc'[k] == desc[k]
    ensures Intact(desc', ops, info, reqs)
  {
    forall g: nat
      ensures Kept(desc', ops, info, reqs, g)
    {
      if g in reqs {
        assert Kept(desc, ops, info, reqs, g) && Placed(reqs, owner, g);
        assert InUse(free, owner, g) && InUse(free, owner, reqs[g].mid) && InUse(free, owner, reqs[g].last);
      }
    }
  }

  lemma MarksMore(owned: set<nat>, reqs: Requests, h: nat, r: Request, owned': set<nat>, reqs': Requests)
    requires Marks(owned, reqs) && h !in reqs && reqs' == reqs[h := r] && owned' == owned + {r.b} && !r.phase.Cleared?
    requires forall g :: g in reqs ==> reqs[g].b != r.b
    ensures Marks(owned', reqs')
  {
    forall g: nat
      ensures MarkOk(owned', reqs', g)
    {
      assert MarkOk(owned, reqs, g);
    }
    forall g: nat, k: nat
      ensures OwnBuffer(reqs', g, k)
    {
      assert OwnBuffer(reqs, g, k);
    }
  }

  /** A request entering phase p joins the end of that phase's queue. */
  lemma ListsJoin(q: seq<nat>, reqs: Requests, p: Phase, h: nat, r: Request, q': seq<nat>, reqs': Requests)
    requires Lists(q, reqs, p) && h < NUM && r.phase == p && h !in q && q' == q + [h] && reqs' == reqs[h := r]
    ensures Lists(q', reqs', p)
  {
    forall k: nat
      ensures Entry(q', reqs', p, k)
    {
      assert Entry(q, reqs, p, k);
    }
    forall g: nat
      ensures Member(q', reqs', p, g)
    {
      assert Member(q, reqs, p, g);
    }
    forall j: nat, k: nat
      ensures Once(q', j, k)
    {
      assert Once(q, j, k);
    }
  }

  lemma ListsLeave(q: seq<nat>, reqs: Requests, p: Phase, r: Request, q': seq<nat>, reqs': Requests)
    requires Lists(q, reqs, p) && |q| > 0 && r.phase != p && q' == q[1..] && reqs' == reqs[q[0] := r]
    ensures Lists(q', reqs', p)
  {
    forall k: nat
      ensures Entry(q', reqs', p, k)
    {
      assert Entry(q, reqs, p, k + 1) && Once(q, 0, k + 1);
    }
    forall g: nat
      ensures Member(q', reqs', p, g)
    {
      assert Member(q, reqs, p, g);
    }
    forall j: nat, k: nat
      ensures Once(q', j, k)
    {
      assert Once(q, j + 1, k + 1);
    }
  }

  /** Requests in other phases come and go without touching p's queue. */
  lemma ListsOther(q: seq<nat>, reqs: Requests, p: Phase, h: nat, reqs': Requests)
    requires Lists(q, reqs, p) && h !in q && AgreeBut(reqs, reqs', h) && (h in reqs' ==> reqs'[h].phase != p)
    ensures Lists(q, reqs', p)
  {
    forall k: nat
      ensures Entry(q, reqs', p, k)
    {
      assert Entry(q, reqs, p, k);
    }
    forall g: nat
      ensures Member(q, reqs', p, g)
    {
      assert Member(q, reqs, p, g);
    }
  }

  ghost predicate AgreeBut(reqs: Requests, reqs': Requests, h: nat) {
    forall g :: g != h ==> (g in reqs' <==> g in reqs) && (g in reqs ==> reqs'[g] == reqs[g])
  }

  /** One ring with its 16-bit index: q is queued, and lists the requests in phase p. */
  ghost predicate Side(ring: seq<nat>, idx: nat, at: nat, q: seq<nat>, reqs: Requests, p: Phase) {
    InRing(ring, at, q) && Lists(q, reqs, p) && idx == (at + |q|) % IDX_LIMIT
  }

  lemma SidePush(ring: seq<nat>, idx: nat, at: nat, q: seq<nat>, reqs: Requests, p: Phase, h: nat, r: Request,
                 ring': seq<nat>, idx': nat, q': seq<nat>, reqs': Requests)
    requires Side(ring, idx, at, q, reqs, p) && h < NUM && h !in q && r.phase == p
    requires ring' == ring[idx % NUM := h] && idx' == (idx + 1) % IDX_LIMIT && q' == q + [h] && reqs' == reqs[h := r]
    ensures Side(ring', idx', at, q', reqs', p)
  {
    WrapPosition(at + |q|);
    NotFull(q, reqs, p, h);
    Append(ring, at, q, h, ring', q');
    ListsJoin(q, reqs, p, h, r, q', reqs');
  }

  lemma SidePop(ring: seq<nat>, idx: nat, at: nat, q: seq<nat>, reqs: Requests, p: Phase, r: Request, q': seq<nat>,
                reqs': Requests)
    requires Side(ring, idx, at, q, reqs, p) && |q| > 0 && r.phase != p && q' == q[1..] && reqs' == reqs[q[0] := r]
    ensures Side(ring, idx, at + 1, q', reqs', p)
  {
    Advance(ring, at, q, q');
    ListsLeave(q, reqs, p, r, q', reqs');
  }

  lemma SideOther(ring: seq<nat>, idx: nat, at: nat, q: seq<nat>, reqs: Requests, p: Phase, h: nat, reqs': Requests)
    requires
      && Side(ring, idx, at, q, reqs, p) && h !in q && AgreeBut(reqs, reqs', h) && (h in reqs' ==> reqs'[h].phase != p)
    ensures Side(ring, idx, at, q, reqs', p)
  {
    ListsOther(q, reqs, p, h, reqs');
  }

  /** A head outside the outstanding requests, or in another phase, is not in p's queue. */
  lemma NotQueued(q: seq<nat>, reqs: Requests, p: Phase, h: nat)
    requires Lists(q, reqs, p) && (h in reqs ==> reqs[h].phase != p)
    ensures h !in q
  {
    forall k: nat | k < |q|
      ensures q[k] != h
    {
      assert Entry(q, reqs, p, k);
    }
  }

  lemma IntactPhase(desc: seq<Desc>, ops: seq<Op>, info: seq<Info>, reqs: Requests, h: nat, p: Phase, info': seq<Info>,
                    reqs': Requests)
    requires Intact(desc, ops, info, reqs) && h in reqs && h < NUM && reqs' == reqs[h := reqs[h].(phase := p)]
    requires info' == info[h := Info(Some(reqs[h].b), if p.Completed? || p.Cleared? then 0 else 0xff)]
    ensures Intact(desc, ops, info', reqs')
  {
    forall g: nat
      ensures Kept(desc, ops, info', reqs', g)
    {
      assert Kept(desc, ops, info, reqs, g);
    }
  }

  lemma MarksPhase(owned: set<nat>, reqs: Requests, h: nat, p: Phase, owned': set<nat>, reqs': Requests)
    requires Marks(owned, reqs) && h in reqs && reqs' == reqs[h := reqs[h].(phase := p)] && !reqs[h].phase.Cleared?
    requires owned' == if p.Cleared? then owned - {reqs[h].b} else owned
    ensures Marks(owned', reqs')
  {
    forall g: nat
      ensures MarkOk(owned', reqs', g)
    {
      assert MarkOk(owned, reqs, g) && OwnBuffer(reqs, h, g);
    }
    forall g: nat, k: nat
      ensures OwnBuffer(reqs', g, k)
    {
      assert OwnBuffer(reqs, g, k);
    }
  }

  /** Forgetting a finished request. */
  lemma LessIntact(desc: seq<Desc>, ops: seq<Op>, info: seq<Info>, free: seq<bool>, reqs: Requests,
                   owner: map<nat, nat>, h: nat, desc': seq<Desc>, info': seq<Info>, reqs': Requests)
    requires Owns(free, reqs, owner) && Intact(desc, ops, info, reqs) && h in reqs && reqs' == reqs - {h}
    requires |desc'| == |info'| == NUM
    requires forall k :: 0 <= k < NUM && k !in Triple(h, reqs[h]) ==> desc'[k] == desc[k]
    requires forall k :: 0 <= k < NUM && k != h ==> info'[k] == info[k]
    ensures Intact(desc', ops, info', reqs')
  {
    assert Placed(reqs, owner, h);
    forall g: nat
      ensures Kept(desc', ops, info', reqs', g)
    {
      assert Kept(desc, ops, info, reqs, g) && Placed(reqs, owner, g);
    }
  }

  lemma LessMarks(owned: set<nat>, reqs: Requests, h: nat, reqs': Requests)
    requires Marks(owned, reqs) && reqs' == reqs - {h}
    ensures Marks(owned, reqs')
  {
    forall g: nat
      ensures MarkOk(owned, reqs', g)
    {
      assert MarkOk(owned, reqs, g);
    }
    forall g: nat, k: nat
      ensures OwnBuffer(reqs', g, k)
    {
      assert OwnBuffer(reqs, g, k);
    }
  }

  function BlockAt(m: map<nat, Block>, k: nat): Block { if k in m then m[k] else Zeros() }

  predicate FewFree(free: seq<bool>) {
    forall i, j, k :: 0 <= i < j < k < |free| ==> !(free[i] && free[j] && free[k])
  }

  /** The memory the driver shares with the device, and the driver's own bookkeeping. */
  datatype Disk = Disk(free: seq<bool>, desc: seq<Desc>, ops: seq<Op>, info: seq<Info>,
                       availRing: seq<nat>, availIdx: nat, devIdx: nat,    // devIdx: how far the device has read
                       usedRing: seq<nat>, usedIdx: nat, usedSeen: nat)    // usedSeen: how far the driver has looked

  /** Who uses what: outstanding requests, the owner of each descriptor, and the entries
      of both rings not yet read, with the number of entries read before them. */
  datatype Ledger = Ledger(reqs: Requests, owner: map<nat, nat>, posted: seq<nat>, taken: nat, done: seq<nat>,
                           seen: nat)

  predicate Sized(d: Disk) {
    |d.free| == |d.desc| == |d.ops| == |d.info| == |d.availRing| == |d.usedRing| == NUM
  }

  datatype Part = Descriptors | Chains | Buffers | Available | Used | Counters

  ghost predicate Holds(d: Disk, owned: set<nat>, l: Ledger, k: Part) {
    match k
    case Descriptors => Owns(d.free, l.reqs, l.owner)
    case Chains => Intact(d.desc, d.ops, d.info, l.reqs)
    case Buffers => Marks(owned, l.reqs)
    case Available => Side(d.availRing, d.availIdx, l.taken, l.posted, l.reqs, Posted)
    case Used => Side(d.usedRing, d.usedIdx, l.seen, l.done, l.reqs, Completed)
    case Counters => d.usedSeen == l.seen % IDX_LIMIT && d.devIdx == l.taken % IDX_LIMIT
  }

  /** Every part of the invariant. */
  ghost predicate Good(d: Disk, owned: set<nat>, l: Ledger) {
    forall k: Part {:trigger Holds(d, owned, l, k)} :: Holds(d, owned, l, k)
  }

  lemma Parts(d: Disk, owned: set<nat>, l: Ledger)
    requires Good(d, owned, l)
    ensures Owns(d.free, l.reqs, l.owner) && Intact(d.desc, d.ops, d.info, l.reqs) && Marks(owned, l.reqs) && Sized(d)
    ensures
      && Side(d.availRing, d.availIdx, l.taken, l.posted, l.reqs, Posted)
      && Side(d.usedRing, d.usedIdx, l.seen, l.done, l.reqs, Completed)
    ensures d.usedSeen == l.seen % IDX_LIMIT && d.devIdx == l.taken % IDX_LIMIT
  {
    assert Holds(d, owned, l, Descriptors) && Holds(d, owned, l, Chains) && Holds(d, owned, l, Buffers);
    assert Holds(d, owned, l, Available) && Holds(d, owned, l, Used) && Holds(d, owned, l, Counters);
  }

  /** The next entry of a nonempty queue, as its reader finds it. */
  lemma Front(ring: seq<nat>, idx: nat, at: nat, q: seq<nat>, reqs: Requests, p: Phase)
    requires Side(ring, idx, at, q, reqs, p)
    ensures at % IDX_LIMIT == idx <==> q == []
    ensures q != [] ==> q[0] < NUM && q[0] in reqs && reqs[q[0]].phase == p && ring[at % IDX_LIMIT % NUM] == q[0]
  {
    QueueBound(q, reqs, p);
    WrapEqual(at, |q|);
    if q != [] {
      WrapPosition(at);
      Advance(ring, at, q, q[1..]);
      assert Entry(q, reqs, p, 0);
    }
  }

  /** What the device finds in the available ring. */
  lemma NextPosted(d: Disk, owned: set<nat>, l: Ledger)
    requires Good(d, owned, l)
    ensures Sized(d) && (d.devIdx == d.availIdx <==> l.posted == [])
    ensures l.posted != [] ==> l.posted[0] in l.reqs && d.availRing[d.devIdx % NUM] == l.posted[0]
    ensures l.posted != [] ==> l.reqs[l.posted[0]].phase == Posted
  {
    Parts(d, owned, l);
    Front(d.availRing, d.availIdx, l.taken, l.posted, l.reqs, Posted);
  }

  /** What the interrupt handler finds in the used ring. */
  lemma NextDone(d: Disk, owned: set<nat>, l: Ledger)
    requires Good(d, owned, l)
    ensures Sized(d) && (d.usedSeen == d.usedIdx <==> l.done == [])
    ensures l.done != [] ==> l.done[0] < NUM && l.done[0] in l.reqs && d.usedRing[d.usedSeen % NUM] == l.done[0]
    ensures l.done != [] ==>
      d.info[l.done[0]] == Info(Some(l.reqs[l.done[0]].b), 0) && l.reqs[l.done[0]].phase == Completed
  {
    Parts(d, owned, l);
    Front(d.usedRing, d.usedIdx, l.seen, l.done, l.reqs, Completed);
    if l.done != [] {
      assert Kept(d.desc, d.ops, d.info, l.reqs, l.done[0]);
    }
  }

  /** Once the used ring is drained no request is left completed and uncleared. */
  lemma Drained(d: Disk, owned: set<nat>, l: Ledger)
    requires Good(d, owned, l) && l.done == []
    ensures forall h :: h in l.reqs ==> l.reqs[h].phase != Completed
  {
    Parts(d, owned, l);
    forall h | h in l.reqs
      ensures l.reqs[h].phase != Completed
    {
      assert Member(l.done, l.reqs, Completed, h);
    }
  }

  /** A request the device has at most taken since. */
  predicate Waiting(before: Request, now: Request) {
    now == before || (before.phase == Posted && now == before.(phase := Taken))
  }

  /** The handler clears a request after its completion, which may have come while the handler was
      at work, and leaves the others to the device. */
  predicate Handled(before: Requests, now: Requests, late: seq<nat>, h: nat) {
    h in before ==>
      && h in now
      && if before[h].phase == Completed || h in late then
           now[h] == before[h].(phase := Completed) || now[h] == before[h].(phase := Cleared)
         else Waiting(before[h], now[h])
  }

  predicate Distinct(s: seq<nat>) { forall i, j :: 0 <= i < j < |s| ==> s[i] != s[j] }

  /** A block's first 512-byte sector; the product is computed in 32 bits. */
  function SectorOf(blockno: nat): nat { blockno * (BSIZE / 512) % WORD_LIMIT }

  /** Every block has two sectors of its own exactly as long as block numbers stay below 2^31. */
  lemma SectorExact(blockno: nat)
    requires blockno < WORD_LIMIT
    ensures SectorOf(blockno) == blockno * (BSIZE / 512) <==> blockno < 0x8000_0000
    ensures forall c: nat ::
      c < 0x8000_0000 && blockno < 0x8000_0000 && SectorOf(c) == SectorOf(blockno) ==> c == blockno
    ensures blockno >= 0x8000_0000 ==> SectorOf(blockno) == SectorOf(blockno - 0x8000_0000)
  {
  }

  ghost predicate AllHandled(before: Requests, now: Requests, late: seq<nat>) {
    forall h: nat {:trigger Handled(before, now, late, h)} :: Handled(before, now, late, h)
  }

  /** The requests the device is at work on. */
  ghost predicate InFlight(busy: set<nat>, reqs: Requests) {
    forall h: nat {:trigger h in busy} :: h in busy <==> h in reqs && reqs[h].phase == Taken
  }

  /** One more completion while the handler is at work. */
  lemma MoreLate(before: Requests, mid: Requests, now: Requests, late: seq<nat>, k: nat)
    requires k < |late| && Distinct(late) && late[k] in mid && now == mid[late[k] := mid[late[k]].(phase := Completed)]
    requires late[k] in before && before[late[k]].phase != Completed && AllHandled(before, mid, late[..k])
    ensures AllHandled(before, now, late[..k + 1])
  {
    var some, all := late[..k], late[..k + 1];
    assert all == some + [late[k]];
    forall h: nat
      ensures Handled(before, now, all, h)
    {
      assert Handled(before, mid, some, h);
    }
  }

  lemma MoreTaken(before: Requests, mid: Requests, now: Requests, late: seq<nat>, h: nat)
    requires h in mid && mid[h].phase == Posted && now == mid[h := mid[h].(phase := Taken)]
    requires AllHandled(before, mid, late)
    ensures AllHandled(before, now, late)
  {
    forall g: nat
      ensures Handled(before, now, late, g)
    {
      assert Handled(before, mid, late, g);
    }
  }

  lemma MoreCleared(before: Requests, mid: Requests, now: Requests, late: seq<nat>)
    requires forall h :: h in mid ==>
               h in now && (now[h] == mid[h] || (mid[h].phase == Completed && now[h] == mid[h].(phase := Cleared)))
    requires AllHandled(before, mid, late)
    ensures AllHandled(before, now, late)
  {
    forall g: nat
      ensures Handled(before, now, late, g)
    {
      assert Handled(before, mid, late, g);
    }
  }

  // ---------------------------------------------------- what requests achieve

  /** Two requests for one sector are both reads. */
  predicate Apart(reqs: Requests, h: nat, g: nat) {
    h in reqs && g in reqs && h != g && reqs[h].sector == reqs[g].sector ==> !reqs[h].write && !reqs[g].write
  }

  /** A request once completed has its buffer and its sector agree. */
  predicate Agrees(reqs: Requests, mem: map<nat, Block>, disk: map<nat, Block>, h: nat) {
    h in reqs && (reqs[h].phase == Completed || reqs[h].phase == Cleared) ==>
      BlockAt(disk, reqs[h].sector) == BlockAt(mem, reqs[h].b)
  }

  ghost predicate Settled(reqs: Requests, mem: map<nat, Block>, disk: map<nat, Block>) {
    && (forall h: nat, g: nat {:trigger Apart(reqs, h, g)} :: Apart(reqs, h, g))
    && (forall h: nat {:trigger Agrees(reqs, mem, disk, h)} :: Agrees(reqs, mem, disk, h))
  }

  /** The effect of carrying out a request. */
  predicate CarriedOut(r: Request, mem: map<nat, Block>, disk: map<nat, Block>, mem': map<nat, Block>,
                       disk': map<nat, Block>) {
    if r.write then disk' == disk[r.sector := BlockAt(mem, r.b)] && mem' == mem
    else mem' == mem[r.b := BlockAt(disk, r.sector)] && disk' == disk
  }

  /** A completion settles its own request and, where no other uses the sector or the buffer, unsettles none. */
  lemma CompleteSettles(owned: set<nat>, reqs: Requests, mem: map<nat, Block>, disk: map<nat, Block>, h: nat,
                        mem': map<nat, Block>, disk': map<nat, Block>)
    requires Marks(owned, reqs) && h in reqs && Settled(reqs, mem, disk) && CarriedOut(reqs[h], mem, disk, mem', disk')
    ensures Settled(reqs[h := reqs[h].(phase := Completed)], mem', disk')
  {
    var reqs' := reqs[h := reqs[h].(phase := Completed)];
    forall g: nat
      ensures Agrees(reqs', mem', disk', g)
    {
      assert Agrees(reqs, mem, disk, g) && Apart(reqs, h, g) && OwnBuffer(reqs, h, g);
    }
    forall g: nat, k: nat
      ensures Apart(reqs', g, k)
    {
      assert Apart(reqs, g, k);
    }
  }

  /** Steps that move no data: taking, clearing, and forgetting a request. */
  lemma StillSettled(reqs: Requests, mem: map<nat, Block>, disk: map<nat, Block>, reqs': Requests)
    requires Settled(reqs, mem, disk)
    requires forall h :: h in reqs' ==> h in reqs && reqs'[h] == reqs[h].(phase := reqs'[h].phase)
    requires forall h :: h in reqs' && (reqs'[h].phase == Completed || reqs'[h].phase == Cleared) ==>
               reqs[h].phase == Completed || reqs[h].phase == Cleared
    ensures Settled(reqs', mem, disk)
  {
    forall g: nat
      ensures Agrees(reqs', mem, disk, g)
    {
      assert Agrees(reqs, mem, disk, g);
    }
    forall g: nat, k: nat
      ensures Apart(reqs', g, k)
    {
      assert Apart(reqs, g, k);
    }
  }

  /** No outstanding request is for r's sector, unless r and it only read. */
  predicate Fresh(reqs: Requests, r: Request) {
    forall g :: g in reqs && reqs[g].sector == r.sector ==> !r.write && !reqs[g].write
  }

  lemma IssueSettled(reqs: Requests, mem: map<nat, Block>, disk: map<nat, Block>, h: nat, r: Request)
    requires Settled(reqs, mem, disk) && r.phase == Posted && Fresh(reqs, r)
    ensures Settled(reqs[h := r], mem, disk)
  {
    var reqs' := reqs[h := r];
    forall g: nat
      ensures Agrees(reqs', mem, disk, g)
    {
      assert Agrees(reqs, mem, disk, g);
    }
    forall g: nat, k: nat
      ensures Apart(reqs', g, k)
    {
      assert Apart(reqs, g, k);
    }
  }

  /** Some outstanding request reads into buffer b. */
  predicate Reads(reqs: Requests, b: nat) { exists h :: h in reqs && !reqs[h].write && reqs[h].b == b }

  predicate Writes(reqs: Requests, sector: nat) { exists h :: h in reqs && reqs[h].write && reqs[h].sector == sector }

  /** Only buffers being read into and sectors being written have changed. */
  ghost predicate Framed(reqs: Requests, mem: map<nat, Block>, disk: map<nat, Block>, mem': map<nat, Block>,
                         disk': map<nat, Block>) {
    && (forall b: nat {:trigger BlockAt(mem', b)} :: BlockAt(mem', b) == BlockAt(mem, b) || Reads(reqs, b))
    && (forall t: nat {:trigger BlockAt(disk', t)} :: BlockAt(disk', t) == BlockAt(disk, t) || Writes(reqs, t))
  }

  lemma FramedMore(before: Requests, mem0: map<nat, Block>, disk0: map<nat, Block>, mem: map<nat, Block>,
                   disk: map<nat, Block>, h: nat, r: Request, mem': map<nat, Block>, disk': map<nat, Block>)
    requires Framed(before, mem0, disk0, mem, disk) && CarriedOut(r, mem, disk, mem', disk')
    requires h in before && before[h] == r.(phase := before[h].phase)
    ensures Framed(before, mem0, disk0, mem', disk')
  {
    forall b: nat
      ensures BlockAt(mem', b) == BlockAt(mem0, b) || Reads(before, b)
    {
      assert BlockAt(mem', b) == BlockAt(mem, b) || (!before[h].write && before[h].b == b);
    }
    forall t: nat
      ensures BlockAt(disk', t) == BlockAt(disk0, t) || Writes(before, t)
    {
      assert BlockAt(disk', t) == BlockAt(disk, t) || (before[h].write && before[h].sector == t);
    }
  }

  /** Who uses what, with the contents of buffers and sectors. */
  datatype Snap = Snap(l: Ledger, mem: map<nat, Block>, disk: map<nat, Block>)

  datatype Aspect = Phases | Flight | Ring | Data | Agreement

  ghost predicate MeanwhileIn(before: Snap, now: Snap, late: seq<nat>, busy: set<nat>, k: Aspect) {
    var l, m := before.l, now.l;
    match k
    case Phases => AllHandled(l.reqs, m.reqs, late) && m.reqs.Keys == l.reqs.Keys
    case Flight => InFlight(busy, m.reqs)
    case Ring => |m.posted| <= |l.posted| && m.posted == l.posted[|l.posted| - |m.posted|..]
    case Data => Framed(l.reqs, before.mem, before.disk, now.mem, now.disk)
    case Agreement => Settled(l.reqs, before.mem, before.disk) ==> Settled(m.reqs, now.mem, now.disk)
  }

  /** What the handler and the device together have done since the handler began. */
  ghost predicate Meanwhile(before: Snap, now: Snap, late: seq<nat>, busy: set<nat>) {
    forall k: Aspect {:trigger MeanwhileIn(before, now, late, busy, k)} :: MeanwhileIn(before, now, late, busy, k)
  }

  lemma MeanwhileAll(before: Snap, now: Snap, late: seq<nat>, busy: set<nat>)
    requires Meanwhile(before, now, late, busy)
    ensures AllHandled(before.l.reqs, now.l.reqs, late) && now.l.reqs.Keys == before.l.reqs.Keys
    ensures InFlight(busy, now.l.reqs) && |now.l.posted| <= |before.l.posted|
    ensures now.l.posted == before.l.posted[|before.l.posted| - |now.l.posted|..]
    ensures Framed(before.l.reqs, before.mem, before.disk, now.mem, now.disk)
    ensures Settled(before.l.reqs, before.mem, before.disk) ==> Settled(now.l.reqs, now.mem, now.disk)
  {
    assert MeanwhileIn(before, now, late, busy, Phases) && MeanwhileIn(before, now, late, busy, Flight);
    assert MeanwhileIn(before, now, late, busy, Ring) && MeanwhileIn(before, now, late, busy, Data);
    assert MeanwhileIn(before, now, late, busy, Agreement);
  }

  /** When the handler ends, every request seen completed is cleared. */
  lemma AllCleared(before: Snap, now: Snap, late: seq<nat>, busy: set<nat>)
    requires Meanwhile(before, now, late, busy)
    requires forall h :: h in now.l.reqs ==> now.l.reqs[h].phase != Completed
    ensures now.l.reqs.Keys == before.l.reqs.Keys
    ensures forall h :: h in now.l.reqs ==>
              if before.l.reqs[h].phase == Completed || h in late
              then now.l.reqs[h] == before.l.reqs[h].(phase := Cleared)
              else Waiting(before.l.reqs[h], now.l.reqs[h])
    ensures |now.l.posted| <= |before.l.posted|
    ensures now.l.posted == before.l.posted[|before.l.posted| - |now.l.posted|..]
    ensures Framed(before.l.reqs, before.mem, before.disk, now.mem, now.disk)
    ensures Settled(before.l.reqs, before.mem, before.disk) ==> Settled(now.l.reqs, now.mem, now.disk)
  {
    MeanwhileAll(before, now, late, busy);
    forall h | h in now.l.reqs
      ensures if before.l.reqs[h].phase == Completed || h in late
              then now.l.reqs[h] == before.l.reqs[h].(phase := Cleared)
              else Waiting(before.l.reqs[h], now.l.reqs[h])
    {
      assert Handled(before.l.reqs, now.l.reqs, late, h);
    }
  }

  /** The chain of an outstanding request. */
  lemma ChainOf(d: Disk, owned: set<nat>, l: Ledger, h: nat)
    requires Good(d, owned, l) && h in l.reqs
    ensures Sized(d) && Formatted(d.desc, d.ops, d.info, h, l.reqs[h])
    ensures var r := l.reqs[h];
            h != r.mid && h != r.last && r.mid != r.last && !d.free[h] && !d.free[r.mid] && !d.free[r.last]
    ensures l.reqs[h].b in owned <==> !l.reqs[h].phase.Cleared?
  {
    Parts(d, owned, l);
    var r := l.reqs[h];
    assert Kept(d.desc, d.ops, d.info, l.reqs, h) && Placed(l.reqs, l.owner, h) && MarkOk(owned, l.reqs, h);
    assert InUse(d.free, l.owner, h) && InUse(d.free, l.owner, r.mid) && InUse(d.free, l.owner, r.last);
  }

  function Issued(l: Ledger, h: nat, r: Request): Ledger {
    l.(reqs := l.reqs[h := r], owner := l.owner[h := h][r.mid := h][r.last := h], posted := l.posted + [h])
  }

  /** A request issued on three free descriptors and posted. */
  lemma IssueStep(d: Disk, owned: set<nat>, l: Ledger, e: Disk, h: nat, r: Request)
    requires Good(d, owned, l) && Sized(d) && r.phase == Posted && forall g :: g in l.reqs ==> l.reqs[g].b != r.b
    requires h < NUM && r.mid < NUM && r.last < NUM && h != r.mid && h != r.last && r.mid != r.last
    requires d.free[h] && d.free[r.mid] && d.free[r.last] && Formatted(e.desc, e.ops, e.info, h, r)
    requires forall k :: 0 <= k < NUM && !d.free[k] ==> e.desc[k] == d.desc[k]
    requires forall k :: 0 <= k < NUM && k != h ==> e.ops[k] == d.ops[k] && e.info[k] == d.info[k]
    requires e == d.(free := d.free[h := false][r.mid := false][r.last := false], desc := e.desc, ops := e.ops,
                     info := e.info, availRing := d.availRing[d.availIdx % NUM := h],
                     availIdx := (d.availIdx + 1) % IDX_LIMIT)
    ensures h !in l.reqs && Good(e, owned + {r.b}, Issued(l, h, r))
  {
    Parts(d, owned, l);
    var m := Issued(l, h, r);
    OwnMore(d.free, l.reqs, l.owner, h, r, e.free, m.reqs, m.owner);
    IntactMore(d.desc, d.ops, d.info, d.free, l.reqs, l.owner, e.desc, e.ops, e.info, h, r, m.reqs);
    MarksMore(owned, l.reqs, h, r, owned + {r.b}, m.reqs);
    NotQueued(l.posted, l.reqs, Posted, h);
    NotQueued(l.done, l.reqs, Completed, h);
    SidePush(d.availRing, d.availIdx, l.taken, l.posted, l.reqs, Posted, h, r, e.availRing, e.availIdx, m.posted,
             m.reqs);
    SideOther(d.usedRing, d.usedIdx, l.seen, l.done, l.reqs, Completed, h, m.reqs);
  }

  /** Free descriptors may hold anything. */
  lemma FreeStep(d: Disk, owned: set<nat>, l: Ledger, e: Disk)
    requires Good(d, owned, l) && Sized(d) && |e.desc| == NUM && e == d.(desc := e.desc)
    requires forall k :: 0 <= k < NUM && !d.free[k] ==> e.desc[k] == d.desc[k]
    ensures Good(e, owned, l)
  {
    Parts(d, owned, l);
    StillIntact(d.desc, d.ops, d.info, d.free, l.reqs, l.owner, e.desc);
  }

  function Moved(l: Ledger, h: nat, p: Phase): Ledger
    requires h in l.reqs
  {
    l.(reqs := l.reqs[h := l.reqs[h].(phase := p)])
  }

  lemma TakeStep(d: Disk, owned: set<nat>, l: Ledger, h: nat, m: Ledger)
    requires Good(d, owned, l) && l.posted != [] && h == l.posted[0] && h in l.reqs
    requires m == Moved(l, h, Taken).(taken := l.taken + 1, posted := l.posted[1..])
    ensures Good(d.(devIdx := (d.devIdx + 1) % IDX_LIMIT), owned, m)
  {
    Parts(d, owned, l);
    var c := (d.devIdx + 1) % IDX_LIMIT;
    WrapNext(d.devIdx, l.taken, c, m.taken);
    var r := m.reqs[h];
    assert Entry(l.posted, l.reqs, Posted, 0) && Kept(d.desc, d.ops, d.info, l.reqs, h);
    NotQueued(l.done, l.reqs, Completed, h);
    OwnSame(d.free, l.reqs, l.owner, h, Taken, m.reqs);
    assert d.info == d.info[h := Info(Some(r.b), 0xff)];
    IntactPhase(d.desc, d.ops, d.info, l.reqs, h, Taken, d.info, m.reqs);
    MarksPhase(owned, l.reqs, h, Taken, owned, m.reqs);
    SidePop(d.availRing, d.availIdx, l.taken, l.posted, l.reqs, Posted, r, m.posted, m.reqs);
    SideOther(d.usedRing, d.usedIdx, l.seen, l.done, l.reqs, Completed, h, m.reqs);
  }

  lemma CompleteStep(d: Disk, owned: set<nat>, l: Ledger, h: nat, e: Disk, m: Ledger)
    requires Good(d, owned, l) && h in l.reqs && h < NUM && l.reqs[h].phase == Taken && Sized(d)
    requires e == d.(info := d.info[h := d.info[h].(status := 0)], usedRing := d.usedRing[d.usedIdx % NUM := h],
                     usedIdx := (d.usedIdx + 1) % IDX_LIMIT)
    requires m == Moved(l, h, Completed).(done := l.done + [h])
    ensures Good(e, owned, m)
  {
    Parts(d, owned, l);
    var r := m.reqs[h];
    assert Kept(d.desc, d.ops, d.info, l.reqs, h);
    NotQueued(l.done, l.reqs, Completed, h);
    NotQueued(l.posted, l.reqs, Posted, h);
    OwnSame(d.free, l.reqs, l.owner, h, Completed, m.reqs);
    IntactPhase(d.desc, d.ops, d.info, l.reqs, h, Completed, e.info, m.reqs);
    MarksPhase(owned, l.reqs, h, Completed, owned, m.reqs);
    SideOther(d.availRing, d.availIdx, l.taken, l.posted, l.reqs, Posted, h, m.reqs);
    SidePush(d.usedRing, d.usedIdx, l.seen, l.done, l.reqs, Completed, h, r, e.usedRing, e.usedIdx, m.done, m.reqs);
  }

  lemma ClearStep(d: Disk, owned: set<nat>, l: Ledger, h: nat, m: Ledger)
    requires Good(d, owned, l) && l.done != [] && h == l.done[0] && h in l.reqs
    requires m == Moved(l, h, Cleared).(seen := l.seen + 1, done := l.done[1..])
    ensures Good(d.(usedSeen := (d.usedSeen + 1) % IDX_LIMIT), owned - {l.reqs[h].b}, m) && l.reqs[h].b in owned
  {
    Parts(d, owned, l);
    var c := (d.usedSeen + 1) % IDX_LIMIT;
    WrapNext(d.usedSeen, l.seen, c, m.seen);
    var r := m.reqs[h];
    assert Entry(l.done, l.reqs, Completed, 0) && Kept(d.desc, d.ops, d.info, l.reqs, h) && MarkOk(owned, l.reqs, h);
    NotQueued(l.posted, l.reqs, Posted, h);
    OwnSame(d.free, l.reqs, l.owner, h, Cleared, m.reqs);
    assert d.info == d.info[h := Info(Some(r.b), 0)];
    IntactPhase(d.desc, d.ops, d.info, l.reqs, h, Cleared, d.info, m.reqs);
    MarksPhase(owned, l.reqs, h, Cleared, owned - {r.b}, m.reqs);
    SideOther(d.availRing, d.availIdx, l.taken, l.posted, l.reqs, Posted, h, m.reqs);
    SidePop(d.usedRing, d.usedIdx, l.seen, l.done, l.reqs, Completed, r, m.done, m.reqs);
  }

  function Forgotten(l: Ledger, h: nat): Ledger
    requires h in l.reqs
  {
    l.(reqs := l.reqs - {h}, owner := l.owner - Triple(h, l.reqs[h]))
  }

  lemma FinishStep(d: Disk, owned: set<nat>, l: Ledger, h: nat, e: Disk)
    requires
      && Good(d, owned, l) && Sized(d) && h in l.reqs && l.reqs[h].phase == Cleared && h < NUM && l.reqs[h].mid < NUM
      && l.reqs[h].last < NUM
    requires |e.desc| == |e.info| == NUM
    requires forall k :: 0 <= k < NUM && k !in Triple(h, l.reqs[h]) ==> e.desc[k] == d.desc[k]
    requires forall k :: 0 <= k < NUM && k != h ==> e.info[k] == d.info[k]
    requires e == d.(free := d.free[h := true][l.reqs[h].mid := true][l.reqs[h].last := true], desc := e.desc,
                     info := e.info)
    ensures Good(e, owned, Forgotten(l, h))
  {
    Parts(d, owned, l);
    var m := Forgotten(l, h);
    NotQueued(l.posted, l.reqs, Posted, h);
    NotQueued(l.done, l.reqs, Completed, h);
    OwnLess(d.free, l.reqs, l.owner, h, e.free, m.reqs, m.owner);
    LessIntact(d.desc, d.ops, d.info, d.free, l.reqs, l.owner, h, e.desc, e.info, m.reqs);
    LessMarks(owned, l.reqs, h, m.reqs);
    SideOther(d.availRing, d.availIdx, l.taken, l.posted, l.reqs, Posted, h, m.reqs);
    SideOther(d.usedRing, d.usedIdx, l.seen, l.done, l.reqs, Completed, h, m.reqs);
  }

  class Driver {
    var d: Disk
    var owned: set<nat>      // buffers with b->disk set
    var mem: map<nat, Block> // buffer contents
    var disk: map<nat, Block>
    var panicked: bool
    ghost var l: Ledger

    ghost predicate Valid()
      reads this`d, this`owned, this`l, this`panicked
    {
      Good(d, owned, l) && !panicked
    }

    /** virtio_disk_init: every descriptor free, both rings empty. */
    constructor ()
      ensures Valid() && l.reqs == map[] && owned == {} && Settled(l.reqs, mem, disk)
    {
      d := Disk(seq(NUM, _ => true), seq(NUM, _ => NO_DESC), seq(NUM, _ => Op(false, 0)), seq(NUM, _ => Info(None, 0)),
                seq(NUM, _ => 0), 0, 0, seq(NUM, _ => 0), 0, 0);
      owned, mem, disk, panicked := {}, map[], map[], false;
      l := Ledger(map[], map[], [], 0, [], 0);
    }

    method AllocDesc() returns (i: int)
      requires |d.free| == NUM
      modifies this`d
      ensures i == -1 ==> d == old(d) && forall k :: 0 <= k < NUM ==> !d.free[k]
      ensures i != -1 ==>
        && 0 <= i < NUM && old(d).free[i] && d == old(d).(free := old(d).free[i := false])
        && forall k :: 0 <= k < i ==> !d.free[k]
    {
      i := 0;
      while i < NUM
        invariant 0 <= i <= NUM && d == old(d) && forall k :: 0 <= k < i ==> !d.free[k]
      {
        if d.free[i] {
          d := d.(free := d.free[i := false]);
          return;
        }
        i := i + 1;
      }
      i := -1;
    }

    method FreeDesc(i: nat)
      requires |d.free| == |d.desc| == NUM
      modifies this`d, this`panicked
      ensures i >= NUM || old(d).free[i] ==> panicked
      ensures i < NUM && !old(d).free[i] ==>
                && panicked == old(panicked)
                && d == old(d).(free := old(d).free[i := true], desc := old(d).desc[i := NO_DESC])
    {
      if i >= NUM || d.free[i] {
        panicked := true;
        return;
      }
      d := d.(free := d.free[i := true], desc := d.desc[i := NO_DESC]);
    }

    /** Three free descriptors, or none taken. */
    method Alloc3() returns (ok: bool, i0: nat, i1: nat, i2: nat)
      requires |d.free| == |d.desc| == NUM && !panicked
      modifies this`d, this`panicked
      ensures !panicked && |d.desc| == NUM
      ensures forall k :: 0 <= k < NUM && !old(d).free[k] ==> d.desc[k] == old(d).desc[k]
      ensures ok ==> i0 < i1 < i2 < NUM && old(d).free[i0] && old(d).free[i1] && old(d).free[i2]
      ensures ok ==> d == old(d).(free := old(d).free[i0 := false][i1 := false][i2 := false])
      ensures !ok ==> d == old(d).(desc := d.desc) && FewFree(d.free)
    {
      i0, i1, i2 := 0, 0, 0;
      var a := AllocDesc();
      if a < 0 {
        return false, 0, 0, 0;
      }
      var c := AllocDesc();
      if c < 0 {
        FreeDesc(a);
        assert d.free == old(d).free;
        return false, 0, 0, 0;
      }
      var e := AllocDesc();
      if e < 0 {
        FreeDesc(a);
        FreeDesc(c);
        assert d.free == old(d).free;
        return false, 0, 0, 0;
      }
      return true, a, c, e;
    }

    /** virtio_disk_rw up to the notification: a request for buffer b, if three descriptors are free. */
    method Submit(b: nat, blockno: nat, write: bool) returns (ok: bool, head: nat, ghost r: Request)
      requires Valid() && blockno < WORD_LIMIT && forall h :: h in l.reqs ==> l.reqs[h].b != b
      modifies this`d, this`owned, this`panicked, this`l
      ensures Valid()
      ensures !ok ==> FewFree(d.free) && l == old(l) && owned == old(owned)
      ensures ok ==> head !in old(l).reqs && l == Issued(old(l), head, r) && owned == old(owned) + {b}
      ensures r.b == b && r.write == write && r.sector == SectorOf(blockno) && r.phase == Posted
      ensures ok && old(Settled(l.reqs, mem, disk)) && Fresh(old(l).reqs, r) ==> Settled(l.reqs, mem, disk)
    {
      var sector := SectorOf(blockno);
      Parts(d, owned, l);
      var i0, i1, i2;
      ok, i0, i1, i2 := Alloc3();
      head := i0;
      r := Request(b, write, sector, i1, i2, Posted);
      if !ok {
        FreeStep(old(d), owned, l, d);
        return;
      }
      Format(b, sector, write, i0, i1, i2);
      d := d.(availRing := d.availRing[d.availIdx % NUM := i0], availIdx := (d.availIdx + 1) % IDX_LIMIT);
      l := Issued(l, i0, r);
      IssueStep(old(d), old(owned), old(l), d, i0, r);
      if Settled(old(l).reqs, mem, disk) && Fresh(old(l).reqs, r) {
        IssueSettled(old(l).reqs, mem, disk, i0, r);
      }
    }

    /** Fill in the three descriptors, the command header and the bookkeeping. */
    method Format(b: nat, sector: nat, write: bool, i0: nat, i1: nat, i2: nat)
      requires
        && |d.desc| == |d.ops| == |d.info| == NUM && i0 < NUM && i1 < NUM && i2 < NUM && i0 != i1 && i1 != i2
        && i0 != i2
      modifies this`d, this`owned
      ensures
        && Formatted(d.desc, d.ops, d.info, i0, Request(b, write, sector, i1, i2, Posted)) && owned == old(owned) + {b}
      ensures forall k :: 0 <= k < NUM && k != i0 && k != i1 && k != i2 ==> d.desc[k] == old(d).desc[k]
      ensures forall k :: 0 <= k < NUM && k != i0 ==> d.ops[k] == old(d).ops[k] && d.info[k] == old(d).info[k]
      ensures d == old(d).(desc := d.desc, ops := d.ops, info := d.info)
    {
      d := d.(ops := d.ops[i0 := Op(write, sector)]);
      d := d.(desc := d.desc[i0 := Desc(OpAt(i0), 16, true, true, i1)]);
      d := d.(desc := d.desc[i1 := Desc(DataOf(b), BSIZE, write, true, i2)]);
      d := d.(info := d.info[i0 := d.info[i0].(status := 0xff)]);
      d := d.(desc := d.desc[i2 := Desc(StatusAt(i0), 1, false, false, 0)]);
      owned := owned + {b};
      d := d.(info := d.info[i0 := d.info[i0].(b := Some(b))]);
    }

    // ------------------------------------------------------ the device

    /** The device takes the next available entry. */
    method DeviceTake() returns (some: bool, h: nat)
      requires Valid()
      modifies this`d, this`l
      ensures Valid() && (some <==> old(l).posted != [])
      ensures some ==>
        && h == old(l).posted[0] && h in old(l).reqs && old(l).reqs[h].phase == Posted
        && l == Moved(old(l), h, Taken).(taken := l.taken, posted := old(l).posted[1..])
      ensures !some ==> l == old(l) && d == old(d)
      ensures old(Settled(l.reqs, mem, disk)) ==> Settled(l.reqs, mem, disk)
    {
      h := 0;
      NextPosted(d, owned, l);
      some := d.devIdx != d.availIdx;
      if some {
        h := d.availRing[d.devIdx % NUM];
        d := d.(devIdx := (d.devIdx + 1) % IDX_LIMIT);
        l := Moved(l, h, Taken).(taken := l.taken + 1, posted := l.posted[1..]);
        TakeStep(old(d), owned, old(l), h, l);
        if Settled(old(l).reqs, mem, disk) {
          StillSettled(old(l).reqs, mem, disk, l.reqs);
        }
      }
    }

    /** What the device finds at the end of a request's descriptors. */
    method ReadChain(h: nat) returns (op: Op, b: nat, st: nat)
      requires h in l.reqs && Formatted(d.desc, d.ops, d.info, h, l.reqs[h])
      ensures op == Op(l.reqs[h].write, l.reqs[h].sector) && b == l.reqs[h].b && st == h < NUM
    {
      var d0 := d.desc[h];
      var d1 := d.desc[d0.next];
      var d2 := d.desc[d1.next];
      return d.ops[d0.addr.i], d1.addr.b, d2.addr.i;
    }

    method Transfer(op: Op, b: nat)
      modifies this`mem, this`disk
      ensures if op.write then disk == old(disk)[op.sector := BlockAt(old(mem), b)] && mem == old(mem)
              else mem == old(mem)[b := BlockAt(old(disk), op.sector)] && disk == old(disk)
    {
      if op.write {
        disk := disk[op.sector := BlockAt(mem, b)];
      } else {
        mem := mem[b := BlockAt(disk, op.sector)];
      }
    }

    /** The device carries out a taken request, reading everything through its descriptors,
        and reports it in the used ring. */
    method DeviceComplete(h: nat)
      requires Valid() && h in l.reqs && l.reqs[h].phase == Taken
      modifies this`d, this`mem, this`disk, this`l
      ensures Valid() && l == Moved(old(l), h, Completed).(done := old(l).done + [h])
      ensures CarriedOut(old(l).reqs[h], old(mem), old(disk), mem, disk)
      ensures old(Settled(l.reqs, mem, disk)) ==> Settled(l.reqs, mem, disk)
    {
      Parts(d, owned, l);
      ChainOf(d, owned, l, h);
      var op, b, st := ReadChain(h);
      Transfer(op, b);
      d := d.(info := d.info[st := d.info[st].(status := 0)],
              usedRing := d.usedRing[d.usedIdx % NUM := h], usedIdx := (d.usedIdx + 1) % IDX_LIMIT);
      l := Moved(l, h, Completed).(done := l.done + [h]);
      CompleteStep(old(d), owned, old(l), h, d, l);
      if old(Settled(l.reqs, mem, disk)) {
        CompleteSettles(owned, old(l).reqs, old(mem), old(disk), h, mem, disk);
      }
    }

    // ------------------------------------------------- the interrupt handler

    /** A round of virtio_disk_intr's loop. */
    method IntrStep() returns (more: bool)
      requires Valid()
      modifies this`d, this`owned, this`panicked, this`l
      ensures Valid() && (more <==> old(l).done != [])
      ensures !more ==> l == old(l) && owned == old(owned) && d == old(d)
      ensures more ==> (var h := old(l).done[0];
                        && h in old(l).reqs && old(l).reqs[h].phase == Completed
                        && l == Moved(old(l), h, Cleared).(seen := l.seen, done := old(l).done[1..])
                        && old(l).reqs[h].b in old(owned) && owned == old(owned) - {old(l).reqs[h].b})
      ensures old(Settled(l.reqs, mem, disk)) ==> Settled(l.reqs, mem, disk)
    {
      NextDone(d, owned, l);
      more := d.usedSeen != d.usedIdx;
      if more {
        var id := d.usedRing[d.usedSeen % NUM];
        panicked := d.info[id].status != 0;
        owned := owned - {d.info[id].b.value};
        d := d.(usedSeen := (d.usedSeen + 1) % IDX_LIMIT);
        l := Moved(l, id, Cleared).(seen := l.seen + 1, done := l.done[1..]);
        ClearStep(old(d), old(owned), old(l), id, l);
        if Settled(old(l).reqs, mem, disk) {
          StillSettled(old(l).reqs, mem, disk, l.reqs);
        }
      }
    }

    /** virtio_disk_intr. Meanwhile the device, which is at work on the requests `busy`, may take more
        from the available ring and complete the requests `late`, in that order: exactly the requests
        completed before the handler or by the time it finds the used ring empty are cleared. */
    method Intr(late: seq<nat>, busy: set<nat>) returns (k: nat)
      requires Valid() && Distinct(late)
      requires forall i :: 0 <= i < |late| ==>
                 late[i] in l.reqs && (l.reqs[late[i]].phase == Posted || l.reqs[late[i]].phase == Taken)
      requires forall h: nat :: h in busy <==> h in l.reqs && l.reqs[h].phase == Taken
      modifies this`d, this`owned, this`panicked, this`l, this`mem, this`disk
      ensures Valid() && l.done == [] && l.reqs.Keys == old(l).reqs.Keys && k <= |late|
      ensures forall h :: h in l.reqs ==>
                if old(l).reqs[h].phase == Completed || h in late[..k]
                then l.reqs[h] == old(l).reqs[h].(phase := Cleared)
                else Waiting(old(l).reqs[h], l.reqs[h])
      ensures |l.posted| <= |old(l).posted| && l.posted == old(l).posted[|old(l).posted| - |l.posted|..]
      ensures Framed(old(l).reqs, old(mem), old(disk), mem, disk)
      ensures old(Settled(l.reqs, mem, disk)) ==> Settled(l.reqs, mem, disk)
    {
      ghost var before := Snap(l, mem, disk);
      assert late[..0] == [];
      var more, now := true, busy;
      k := 0;
      while more
        invariant Valid() && (!more ==> l.done == []) && k <= |late|
        invariant Meanwhile(before, Snap(l, mem, disk), late[..k], now)
        decreases |late| - k, |l.posted|, more, |l.done|
      {
        var device: bool := *;
        if device && k < |late| && late[k] in now {
          CompleteLate(late, k, before, now);
          now, k := now - {late[k]}, k + 1;
        } else {
          var some, h := false, 0;
          if device {
            some, h := TakeLate(before, late[..k], now);
          }
          if some {
            now := now + {h};
          } else {
            more := ClearLate(before, late[..k], now);
          }
        }
      }
      Drained(d, owned, l);
      AllCleared(before, Snap(l, mem, disk), late[..k], now);
    }

    /** The device completes a request while the handler is at work. */
    method CompleteLate(late: seq<nat>, k: nat, ghost before: Snap, ghost now: set<nat>)
      requires Valid() && Distinct(late) && k < |late| && late[k] in now
      requires late[k] in before.l.reqs && before.l.reqs[late[k]].phase != Completed
      requires Meanwhile(before, Snap(l, mem, disk), late[..k], now)
      modifies this`d, this`mem, this`disk, this`l
      ensures Valid() && Meanwhile(before, Snap(l, mem, disk), late[..k + 1], now - {late[k]})
    {
      ghost var mid := Snap(l, mem, disk);
      MeanwhileAll(before, mid, late[..k], now);
      DeviceComplete(late[k]);
      assert Handled(before.l.reqs, mid.l.reqs, late[..k], late[k]);
      FramedMore(before.l.reqs, before.mem, before.disk, mid.mem, mid.disk, late[k], mid.l.reqs[late[k]], mem, disk);
      MoreLate(before.l.reqs, mid.l.reqs, l.reqs, late, k);
    }

    method TakeLate(ghost before: Snap, ghost late: seq<nat>, ghost now: set<nat>) returns (some: bool, h: nat)
      requires Valid() && Meanwhile(before, Snap(l, mem, disk), late, now)
      modifies this`d, this`l
      ensures Valid() && Meanwhile(before, Snap(l, mem, disk), late, if some then now + {h} else now)
      ensures if some then |l.posted| < |old(l).posted| else l == old(l)
    {
      ghost var mid := Snap(l, mem, disk);
      MeanwhileAll(before, mid, late, now);
      some, h := DeviceTake();
      if some {
        MoreTaken(before.l.reqs, mid.l.reqs, l.reqs, late, h);
      }
    }

    method ClearLate(ghost before: Snap, ghost late: seq<nat>, ghost now: set<nat>) returns (more: bool)
      requires Valid() && Meanwhile(before, Snap(l, mem, disk), late, now)
      modifies this`d, this`owned, this`panicked, this`l
      ensures Valid() && Meanwhile(before, Snap(l, mem, disk), late, now) && l.posted == old(l).posted
      ensures (more <==> old(l).done != []) && (more ==> |l.done| < |old(l).done|) && (!more ==> l.done == [])
    {
      ghost var mid := Snap(l, mem, disk);
      MeanwhileAll(before, mid, late, now);
      more := IntrStep();
      MoreCleared(before.l.reqs, mid.l.reqs, l.reqs, late);
    }

    // ----------------------------------------------------- after the wait

    /** Free a request's chain, following the descriptors' next fields. */
    method FreeChain(h: nat, ghost mid: nat, ghost last: nat)
      requires
        && |d.free| == |d.desc| == NUM && !panicked && h < NUM && mid < NUM && last < NUM && h != mid && h != last
        && mid != last
      requires
        && d.desc[h].more && d.desc[h].next == mid && d.desc[mid].more && d.desc[mid].next == last && !d.desc[last].more
      requires !d.free[h] && !d.free[mid] && !d.free[last]
      modifies this`d, this`panicked
      ensures !panicked && d == old(d).(free := old(d).free[h := true][mid := true][last := true], desc := d.desc)
      ensures |d.desc| == NUM
      ensures forall k :: 0 <= k < NUM && k != h && k != mid && k != last ==> d.desc[k] == old(d).desc[k]
    {
      var i := h;
      ghost var k := 0;
      while true
        invariant 0 <= k <= 2 && !panicked && |d.desc| == NUM
        invariant i == if k == 0 then h else if k == 1 then mid else last
        invariant d == old(d).(desc := d.desc,
                               free := if k == 0 then old(d).free
                                       else if k == 1 then old(d).free[h := true]
                                       else old(d).free[h := true][mid := true])
        invariant forall j :: 0 <= j < NUM && (k == 0 || j != h) && (k <= 1 || j != mid) ==> d.desc[j] == old(d).desc[j]
        decreases 2 - k
      {
        var flag, nxt := d.desc[i].more, d.desc[i].next;
        FreeDesc(i);
        if flag {
          i := nxt;
        } else {
          break;
        }
        k := k + 1;
      }
    }

    /** The end of virtio_disk_rw, once the interrupt handler has cleared the buffer: the transfer is done. */
    method Finish(h: nat)
      requires Valid() && h in l.reqs && l.reqs[h].b !in owned
      modifies this`d, this`panicked, this`l
      ensures Valid() && l == Forgotten(old(l), h)
      ensures old(Settled(l.reqs, mem, disk)) ==>
        Settled(l.reqs, mem, disk) && BlockAt(disk, old(l).reqs[h].sector) == BlockAt(mem, old(l).reqs[h].b)
    {
      ghost var r := l.reqs[h];
      ChainOf(d, owned, l, h);
      d := d.(info := d.info[h := d.info[h].(b := None)]);
      FreeChain(h, r.mid, r.last);
      l := Forgotten(l, h);
      FinishStep(old(d), owned, old(l), h, d);
      if Settled(old(l).reqs, mem, disk) {
        assert Agrees(old(l).reqs, mem, disk, h);
        StillSettled(old(l).reqs, mem, disk, l.reqs);
      }
    }

    /** The holder of a buffer with no outstanding request changes its contents. */
    method Change(b: nat, data: Block)
      requires Valid() && forall h :: h in l.reqs ==> l.reqs[h].b != b
      modifies this`mem
      ensures Valid() && mem == old(mem)[b := data]
      ensures Settled(l.reqs, old(mem), disk) ==> Settled(l.reqs, mem, disk)
    {
      mem := mem[b := data];
      if Settled(l.reqs, old(mem), disk) {
        forall h: nat
          ensures Agrees(l.reqs, mem, disk, h)
        {
          assert Agrees(l.reqs, old(mem), disk, h);
        }
      }
    }
  }
}
