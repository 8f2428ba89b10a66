/** Whole runs of the logging system: operations begin, write and end in any
    interleaving, the last one to end commits them all as one transaction, and
    the machine may stop between any two disk writes, during recovery too. */
module LogRuns {
  import opened Common
  import opened RedoLog

  /** One log_write: operation `op` recorded contents x for a block. */
  datatype Entry<T> = Entry(op: nat, block: nat, x: T)

  /** An operation between begin_op and end_op, and how many header entries it added. */
  datatype Op = Op(id: nat, added: nat)

  datatype Phase = Running | Committing(done: nat) | Booting(done: nat)

  datatype Sys<T> = Sys(
    im: Image<T>,               // the disk
    base: Image<T>,             // the disk when the current commit or boot began
    lh: seq<nat>,               // in-memory header
    cache: map<nat, T>,         // pinned contents of the logged blocks
    ops: seq<Op>,               // outstanding operations
    nextOp: nat,                // next operation number
    epoch: nat,                 // first operation number since the last commit or boot
    writes: seq<Entry<T>>,      // log_writes since then
    phase: Phase,
    begun: seq<seq<Entry<T>>>,  // transactions handed to commit()
    returned: set<nat>)         // those whose commit() returned

  datatype Step<T> =
    | BeginOp
    | LogWrite(which: nat, block: nat, x: T)
    | EndOp(which: nat)
    | CommitWrite
    | CommitReturn
    | Crash
    | BootWrite
    | BootDone

  function Data<T>(lh: seq<nat>, cache: map<nat, T>): (d: seq<T>)
    requires forall b :: b in lh ==> b in cache
    ensures |d| == |lh|
  {
    seq(|lh|, i requires 0 <= i < |lh| => cache[lh[i]])
  }

  /** begin_op's test for enough log space. */
  predicate HasRoom(n: nat, outstanding: nat) {
    n + (outstanding + 1) * MAXOPBLOCKS <= LOGSIZE
  }

  /** log_write's two full-log panics; `slots` is log.size - 1. */
  predicate TooBig(n: nat, slots: nat) {
    n >= LOGSIZE || n >= slots
  }

  function AddEntry(lh: seq<nat>, b: nat): seq<nat> {
    if b in lh then lh else lh + [b]
  }

  ghost predicate Next<T>(s: Sys<T>, s': Sys<T>, step: Step<T>) {
    match step
    case BeginOp =>
      && s.phase.Running? && HasRoom(|s.lh|, |s.ops|)
      && s' == s.(ops := s.ops + [Op(s.nextOp, 0)], nextOp := s.nextOp + 1)
    case LogWrite(i, b, x) =>
      && s.phase.Running? && i < |s.ops| && b in s.im.home
      && !TooBig(|s.lh|, |s.im.slots|)
      && s' == s.(lh := AddEntry(s.lh, b), cache := s.cache[b := x],
                  writes := s.writes + [Entry(s.ops[i].id, b, x)],
                  ops := s.ops[i := s.ops[i].(added := s.ops[i].added + if b in s.lh then 0 else 1)])
    case EndOp(i) =>
      && s.phase.Running? && i < |s.ops|
      && var t := s.(ops := s.ops[..i] + s.ops[i + 1..]);
        s' == if t.ops == [] then t.(phase := Committing(0), base := s.im, begun := s.begun + [s.writes]) else t
    case CommitWrite =>
      && s.phase.Committing? && (forall b :: b in s.lh ==> b in s.cache)
      && var ws := CommitWrites(s.lh, Data(s.lh, s.cache));
        && s.phase.done < |ws| && Fits(s.im, ws[s.phase.done])
        && s' == s.(im := Put(s.im, ws[s.phase.done]), phase := Committing(s.phase.done + 1))
    case CommitReturn =>
      && s.phase.Committing? && (forall b :: b in s.lh ==> b in s.cache)
      && s.phase.done == |CommitWrites(s.lh, Data(s.lh, s.cache))| && s.begun != []
      && s' == s.(phase := Running, lh := [], cache := map[], writes := [], epoch := s.nextOp,
                  returned := s.returned + {|s.begun| - 1})
    case Crash =>
      s' == s.(phase := Booting(0), base := s.im, lh := [], cache := map[], ops := [], writes := [],
               epoch := s.nextOp)
    case BootWrite =>
      && s.phase.Booting? && |s.base.head| <= |s.base.slots|
      && var ws := RecoverWrites(s.base);
        && s.phase.done < |ws| && Fits(s.im, ws[s.phase.done])
        && s' == s.(im := Put(s.im, ws[s.phase.done]), phase := Booting(s.phase.done + 1))
    case BootDone =>
      && s.phase.Booting? && |s.base.head| <= |s.base.slots|
      && s.phase.done == |RecoverWrites(s.base)|
      && s' == s.(phase := Running)
  }

  /** First boot of an image whose log, if any, is well formed. */
  ghost predicate Init<T>(s: Sys<T>, im: Image<T>) {
    && WellFormed(im)
    && s == Sys(im, im, [], map[], [], 0, 0, [], Booting(0), [], {})
  }

  ghost predicate IsRun<T>(run: seq<Sys<T>>, steps: seq<Step<T>>, im: Image<T>) {
    && |run| == |steps| + 1 && Init(run[0], im)
    && forall i: nat {:trigger StepAt(run, steps, i)} :: StepAt(run, steps, i)
  }

  ghost predicate StepAt<T>(run: seq<Sys<T>>, steps: seq<Step<T>>, i: nat) {
    i < |steps| && i + 1 < |run| ==> Next(run[i], run[i + 1], steps[i])
  }

  // ------------------------------------------------------- meaning of a run

  /** The net effect of a list of log_writes: the last write to a block wins. */
  function Overlay<T>(ws: seq<Entry<T>>): map<nat, T> {
    if ws == [] then map[]
    else Overlay(ws[..|ws| - 1])[ws[|ws| - 1].block := ws[|ws| - 1].x]
  }

  /** The state after the kept transactions, in order, on top of `home`. */
  function Replay<T>(home: map<nat, T>, txs: seq<seq<Entry<T>>>, keep: seq<bool>): map<nat, T>
    requires |keep| == |txs|
  {
    if txs == [] then home
    else
      var n := |txs| - 1;
      var before := Replay(home, txs[..n], keep[..n]);
      if keep[n] then before + Overlay(txs[n]) else before
  }

  /** `keep` explains m: every returned transaction is in, each other one is
      wholly in or wholly out, and nothing else happened. */
  ghost predicate Explains<T>(home: map<nat, T>, s: Sys<T>, m: map<nat, T>, keep: seq<bool>) {
    && |keep| == |s.begun|
    && (forall i :: i in s.returned ==> 0 <= i < |keep| && keep[i])
    && m == Replay(home, s.begun, keep)
  }

  // -------------------------------------------------------------- invariant

  /** Header entries the outstanding operations may still add. */
  function Reserved(ops: seq<Op>): int {
    if ops == [] then 0
    else Reserved(ops[..|ops| - 1]) + MAXOPBLOCKS - ops[|ops| - 1].added
  }

  ghost predicate Shape<T>(s: Sys<T>, im: Image<T>) {
    && |s.im.slots| == |im.slots| && s.im.home.Keys == im.home.Keys && WellFormed(s.im)
    && GoodEntries(s.im, s.lh)
    && s.cache.Keys == (set b | b in s.lh)
    && s.cache == Overlay(s.writes)
  }

  /** No outstanding operation has added more blocks than it reserved; the code relies on this
      without checking it. */
  ghost predicate Thrifty<T>(s: Sys<T>) {
    forall o :: o in s.ops ==> o.added <= MAXOPBLOCKS
  }

  ghost predicate ThriftyRun<T>(run: seq<Sys<T>>) {
    forall i :: 0 <= i < |run| ==> Thrifty(run[i])
  }

  ghost predicate Reservation<T>(s: Sys<T>) {
    Thrifty(s) && |s.lh| + Reserved(s.ops) <= LOGSIZE
  }

  ghost predicate OpNumbers<T>(s: Sys<T>) {
    && s.epoch <= s.nextOp
    && (forall o :: o in s.ops ==> s.epoch <= o.id < s.nextOp)
    && (forall e :: e in s.writes ==> s.epoch <= e.op < s.nextOp)
    && (forall i, e :: 0 <= i < |s.begun| && e in s.begun[i] ==>
          e.op < if s.phase.Committing? && i == |s.begun| - 1 then s.nextOp else s.epoch)
    && (forall i, j, e, f :: 0 <= i < j < |s.begun| && e in s.begun[i] && f in s.begun[j] ==> e.op < f.op)
  }

  ghost predicate PhaseOk<T>(s: Sys<T>) {
    match s.phase
    case Running => s.im.head == []
    case Committing(k) =>
      && s.ops == [] && s.begun != [] && s.begun[|s.begun| - 1] == s.writes
      && s.base.head == [] && GoodEntries(s.base, s.lh) && (forall b :: b in s.lh ==> b in s.cache)
      && (if s.lh == [] then k == 0 && s.im == s.base
          else k <= 2 * |s.lh| + 2 && s.im == CommitImage(s.base, s.lh, Data(s.lh, s.cache), k))
    case Booting(k) =>
      && s.ops == [] && s.lh == [] && s.writes == []
      && WellFormed(s.base) && k <= |s.base.head| + 1 && s.im == RecoverImage(s.base, k)
  }

  /** `keep` explains what the disk stands for; while committing, the last transaction is in
      exactly when the header is. */
  ghost predicate DurableBy<T>(s: Sys<T>, m: map<nat, T>, keep: seq<bool>) {
    && WellFormed(s.im) && Explains(m, s, Abs(s.im), keep)
    && (s.phase.Committing? ==>
          |keep| > 0 && (keep[|keep| - 1] <==> s.phase.done > |s.lh|) && |s.begun| - 1 !in s.returned)
  }

  ghost predicate Inv<T>(s: Sys<T>, im: Image<T>) {
    WellFormed(im) && Shape(s, im) && OpNumbers(s) && PhaseOk(s)
  }

  /** How a step may change the fates: a commit in progress decides its own transaction, and a new
      transaction is added at the end. */
  ghost predicate Decides<T>(s: Sys<T>, keep: seq<bool>, keep': seq<bool>) {
    if s.phase.Committing? then |keep'| == |keep| > 0 && keep'[..|keep| - 1] == keep[..|keep| - 1] else keep <= keep'
  }

  // ---------------------------------------------------- steps keep it: memory

  lemma {:induction false} ReservedAppend(ops: seq<Op>, o: Op)
    ensures Reserved(ops + [o]) == Reserved(ops) + MAXOPBLOCKS - o.added
  {
    assert (ops + [o])[..|ops|] == ops;
  }

  lemma {:induction false} ReservedConcat(a: seq<Op>, b: seq<Op>)
    ensures Reserved(a + b) == Reserved(a) + Reserved(b)
  {
    if b == [] {
      assert a + b == a;
    } else {
      var n := |b| - 1;
      assert a + b == (a + b[..n]) + [b[n]];
      ReservedAppend(a + b[..n], b[n]);
      ReservedConcat(a, b[..n]);
    }
  }

  lemma ReservedAround(ops: seq<Op>, i: nat)
    requires i < |ops|
    ensures Reserved(ops) == Reserved(ops[..i] + ops[i + 1..]) + MAXOPBLOCKS - ops[i].added
    ensures forall o: Op :: Reserved(ops[i := o]) == Reserved(ops[..i] + ops[i + 1..]) + MAXOPBLOCKS - o.added
  {
    ReservedConcat(ops[..i], ops[i + 1..]);
    forall o: Op
      ensures Reserved(ops[i := o]) == Reserved(ops[..i] + ops[i + 1..]) + MAXOPBLOCKS - o.added
    {
      assert ops[i := o] == (ops[..i] + [o]) + ops[i + 1..];
      ReservedConcat(ops[..i] + [o], ops[i + 1..]);
      ReservedAppend(ops[..i], o);
    }
    assert ops[i := ops[i]] == ops;
  }

  lemma {:induction false} ReservedBounds(ops: seq<Op>)
    requires forall o :: o in ops ==> o.added <= MAXOPBLOCKS
    ensures 0 <= Reserved(ops) <= |ops| * MAXOPBLOCKS
  {
    if ops != [] {
      ReservedBounds(ops[..|ops| - 1]);
    }
  }

  lemma RoomForNewBlock<T>(s: Sys<T>, im: Image<T>, i: nat)
    requires Shape(s, im) && Reservation(s) && |im.slots| >= LOGSIZE
    requires i < |s.ops| && s.ops[i].added < MAXOPBLOCKS
    ensures !TooBig(|s.lh|, |s.im.slots|)
  {
    ReservedAround(s.ops, i);
    ReservedBounds(s.ops[..i] + s.ops[i + 1..]);
  }

  lemma ReservationWrite(ops: seq<Op>, i: nat, n: nat, isNew: bool)
    requires i < |ops| && n + Reserved(ops) <= LOGSIZE
    ensures var d := if isNew then 1 else 0;
      n + d + Reserved(ops[i := ops[i].(added := ops[i].added + d)]) <= LOGSIZE
  {
    ReservedAround(ops, i);
  }

  lemma ReservationEnd(ops: seq<Op>, i: nat, n: nat)
    requires i < |ops| && (forall o :: o in ops ==> o.added <= MAXOPBLOCKS)
    requires n + Reserved(ops) <= LOGSIZE
    ensures var ops' := ops[..i] + ops[i + 1..];
      n + Reserved(ops') <= LOGSIZE && forall o :: o in ops' ==> o.added <= MAXOPBLOCKS
  {
    ReservedAround(ops, i);
  }

  lemma ReservationStep<T>(s: Sys<T>, s': Sys<T>, step: Step<T>)
    requires Reservation(s) && Next(s, s', step) && Thrifty(s')
    ensures Reservation(s')
  {
    match step
    case BeginOp =>
      ReservedBounds(s.ops);
      ReservedAppend(s.ops, Op(s.nextOp, 0));
    case LogWrite(i, b, x) =>
      ReservationWrite(s.ops, i, |s.lh|, b !in s.lh);
    case EndOp(i) =>
      ReservationEnd(s.ops, i, |s.lh|);
    case CommitReturn =>
      ReservedBounds(s.ops);
      assert s'.ops == s.ops;
    case Crash =>
    case CommitWrite =>
    case BootWrite =>
    case BootDone =>
  }

  lemma OpNumbersStep<T>(s: Sys<T>, s': Sys<T>, step: Step<T>)
    requires OpNumbers(s) && PhaseOk(s) && Next(s, s', step)
    ensures OpNumbers(s')
  {
    match step
    case EndOp(_) => BegunNumbers(s, s');
    case CommitReturn => SettledNumbers(s, s');
    case Crash => SettledNumbers(s, s');
    case CommitWrite =>
    case BeginOp =>
    case LogWrite(_, _, _) =>
    case BootWrite =>
    case BootDone =>
  }

  /** A commit begins, or another operation is still open. */
  lemma BegunNumbers<T>(s: Sys<T>, s': Sys<T>)
    requires OpNumbers(s) && s.phase.Running? && s'.epoch == s.epoch && s'.nextOp == s.nextOp && s'.writes == s.writes
    requires forall o :: o in s'.ops ==> o in s.ops
    requires if s'.phase.Committing? then s'.begun == s.begun + [s.writes] else s'.begun == s.begun
    ensures OpNumbers(s')
  {
  }

  /** Whatever was open is over: later operations have higher numbers. */
  lemma SettledNumbers<T>(s: Sys<T>, s': Sys<T>)
    requires OpNumbers(s) && !s'.phase.Committing? && s'.begun == s.begun && s'.writes == []
    requires s'.epoch == s'.nextOp == s.nextOp && s'.ops == []
    ensures OpNumbers(s')
  {
  }

  lemma OverlayAppend<T>(ws: seq<Entry<T>>, e: Entry<T>)
    ensures Overlay(ws + [e]) == Overlay(ws)[e.block := e.x]
  {
    assert (ws + [e])[..|ws|] == ws;
  }

  // ------------------------------------------------------ steps keep it: disk

  lemma CommitWriteImage<T>(s: Sys<T>, s': Sys<T>)
    requires PhaseOk(s) && Next(s, s', CommitWrite)
    ensures PhaseOk(s') && s.lh != []
    ensures |s'.im.slots| == |s.im.slots| && s'.im.home.Keys == s.im.home.Keys && WellFormed(s'.im)
    ensures Abs(s'.im) == if s'.phase.done <= |s.lh| then s.base.home
                          else s.base.home + TxMap(s.lh, Data(s.lh, s.cache))
    ensures Abs(s.im) == if s.phase.done <= |s.lh| then s.base.home
                         else s.base.home + TxMap(s.lh, Data(s.lh, s.cache))
  {
    var d, k := Data(s.lh, s.cache), s.phase.done;
    assert s'.phase == Committing(k + 1) && s'.lh == s.lh && s'.cache == s.cache && s'.base == s.base;
    CommitAdvance(s.base, s.im, s.lh, d, k, s'.im);
  }

  lemma BootWriteImage<T>(s: Sys<T>, s': Sys<T>)
    requires PhaseOk(s) && Next(s, s', BootWrite)
    ensures PhaseOk(s')
    ensures |s'.im.slots| == |s.im.slots| && s'.im.home.Keys == s.im.home.Keys && WellFormed(s'.im)
    ensures Abs(s'.im) == Abs(s.im)
  {
    var k := s.phase.done;
    assert s'.phase == Booting(k + 1) && s'.base == s.base;
    var im' := RecoverAdvance(s.base, s.im, k);
    assert s'.im == im';
  }

  /** The blocks a commit logs are exactly the net effect of the log_writes. */
  lemma TxIsOverlay<T>(s: Sys<T>, im: Image<T>)
    requires Shape(s, im)
    ensures forall b :: b in s.lh ==> b in s.cache
    ensures TxMap(s.lh, Data(s.lh, s.cache)) == Overlay(s.writes)
  {
    var d := Data(s.lh, s.cache);
    TxMapKeys(s.lh, d);
    forall b | b in s.lh
      ensures TxMap(s.lh, d)[b] == s.cache[b]
    {
      var i :| 0 <= i < |s.lh| && s.lh[i] == b;
      TxMapAt(s.lh, d, i);
    }
  }

  lemma ShapeWrite<T>(s: Sys<T>, s': Sys<T>, i: nat, b: nat, x: T, im: Image<T>)
    requires Shape(s, im) && Next(s, s', LogWrite(i, b, x))
    ensures Shape(s', im)
  {
    OverlayAppend(s.writes, Entry(s.ops[i].id, b, x));
    assert forall c :: c in s'.lh <==> c in s.lh || c == b;
  }

  lemma ShapeStep<T>(s: Sys<T>, s': Sys<T>, step: Step<T>, im: Image<T>)
    requires Shape(s, im) && PhaseOk(s) && Next(s, s', step)
    ensures Shape(s', im)
  {
    match step
    case LogWrite(i, b, x) => ShapeWrite(s, s', i, b, x, im);
    case CommitWrite => CommitWriteImage(s, s');
    case BootWrite => BootWriteImage(s, s');
    case BeginOp =>
    case EndOp(_) =>
    case CommitReturn =>
    case Crash =>
    case BootDone =>
  }

  lemma PhaseStep<T>(s: Sys<T>, s': Sys<T>, step: Step<T>, im: Image<T>)
    requires Shape(s, im) && PhaseOk(s) && Next(s, s', step)
    ensures PhaseOk(s')
  {
    match step
    case CommitWrite => CommitWriteImage(s, s');
    case BootWrite => BootWriteImage(s, s');
    case EndOp(_) =>
      if s.lh != [] && s'.phase.Committing? {
        assert Data(s.lh, s.cache)[..0] + s.im.slots[0..] == s.im.slots;
      }
    case CommitReturn =>
      if s.lh != [] {
        CommitPrefixAbs(s.base, s.lh, Data(s.lh, s.cache), s.phase.done);
      }
    case BootDone =>
      RecoverPrefixAbs(s.base, s.phase.done);
    case Crash =>
      assert s.im.home + TxMap<T>([], []) == s.im.home;
      assert s.im.head[..0] == [] && s.im.slots[..|s.im.head|][..0] == [];
    case BeginOp =>
    case LogWrite(_, _, _) =>
  }

  // ------------------------------------------- steps keep it: what is durable

  /** Turning the last transaction on adds exactly its net effect. */
  lemma ReplayTurnOn<T>(m: map<nat, T>, txs: seq<seq<Entry<T>>>, keep: seq<bool>)
    requires |keep| == |txs| && txs != [] && !keep[|keep| - 1]
    ensures Replay(m, txs, keep[|keep| - 1 := true]) == Replay(m, txs, keep) + Overlay(txs[|txs| - 1])
  {
    var n := |txs| - 1;
    assert keep[n := true][..n] == keep[..n];
  }

  lemma ExplainsTurnOn<T>(m: map<nat, T>, s: Sys<T>, s': Sys<T>, x: map<nat, T>, keep: seq<bool>)
    requires Explains(m, s, x, keep) && |keep| > 0 && !keep[|keep| - 1]
    requires s'.begun == s.begun && s'.returned <= s.returned + {|keep| - 1}
    ensures Explains(m, s', x + Overlay(s.begun[|s.begun| - 1]), keep[|keep| - 1 := true])
  {
    ReplayTurnOn(m, s.begun, keep);
  }

  /** The header write is the commit point: it adds the operations' writes, and
      no other write of the commit changes what the disk stands for. */
  lemma CommitPoint<T>(s: Sys<T>, s': Sys<T>, im: Image<T>)
    requires Shape(s, im) && PhaseOk(s) && Next(s, s', CommitWrite)
    ensures s.begun != [] && WellFormed(s.im) && WellFormed(s'.im)
    ensures Abs(s'.im) == if s.phase.done == |s.lh| then Abs(s.im) + Overlay(s.begun[|s.begun| - 1]) else Abs(s.im)
  {
    CommitWriteImage(s, s');
    TxIsOverlay(s, im);
  }

  lemma FateCommitWrite<T>(s: Sys<T>, s': Sys<T>, m: map<nat, T>, keep: seq<bool>) returns (keep': seq<bool>)
    requires s.phase.Committing? && s.begun != [] && WellFormed(s.im) && WellFormed(s'.im) && DurableBy(s, m, keep)
    requires s' == s.(im := s'.im, phase := Committing(s.phase.done + 1))
    requires Abs(s'.im) == if s.phase.done == |s.lh| then Abs(s.im) + Overlay(s.begun[|s.begun| - 1]) else Abs(s.im)
    ensures DurableBy(s', m, keep') && Decides(s, keep, keep')
  {
    if s.phase.done == |s.lh| {
      ExplainsTurnOn(m, s, s', Abs(s.im), keep);
      keep' := keep[|keep| - 1 := true];
    } else {
      keep' := keep;
    }
  }

  /** An empty transaction has no effect, any other has written its header by now. */
  lemma ReturnFacts<T>(s: Sys<T>, s': Sys<T>, im: Image<T>)
    requires Shape(s, im) && PhaseOk(s) && Next(s, s', CommitReturn)
    ensures s.begun != [] && WellFormed(s.im)
    ensures s.phase.done > |s.lh| || (s.phase.done == 0 && Overlay(s.begun[|s.begun| - 1]) == map[])
  {
    if s.lh != [] {
      CommitWriteAt(s.lh, Data(s.lh, s.cache), 0);
    } else {
      assert s.cache == map[];
    }
  }

  /** When commit() returns its transaction is durable. */
  lemma FateReturn<T>(s: Sys<T>, s': Sys<T>, m: map<nat, T>, keep: seq<bool>) returns (keep': seq<bool>)
    requires s.phase.Committing? && s.begun != [] && WellFormed(s.im) && DurableBy(s, m, keep)
    requires s'.im == s.im && s'.begun == s.begun && s'.phase.Running? && s'.returned == s.returned + {|s.begun| - 1}
    requires s.phase.done > |s.lh| || (s.phase.done == 0 && Overlay(s.begun[|s.begun| - 1]) == map[])
    ensures DurableBy(s', m, keep') && Decides(s, keep, keep') && keep'[|keep'| - 1]
  {
    if s.phase.done > |s.lh| {
      keep' := keep;
    } else {
      ExplainsTurnOn(m, s, s', Abs(s.im), keep);
      assert Abs(s.im) + map[] == Abs(s.im);
      keep' := keep[|keep| - 1 := true];
    }
  }

  /** Steps that neither commit nor change what the disk stands for. */
  lemma FateSame<T>(s: Sys<T>, s': Sys<T>, m: map<nat, T>, keep: seq<bool>)
    requires DurableBy(s, m, keep) && WellFormed(s'.im) && Abs(s'.im) == Abs(s.im)
    requires s'.begun == s.begun && s'.returned == s.returned && !s'.phase.Committing?
    ensures DurableBy(s', m, keep) && Decides(s, keep, keep)
  {
  }

  /** Handing a transaction to commit() leaves it out until the header is written. */
  lemma FateEndOp<T>(s: Sys<T>, s': Sys<T>, m: map<nat, T>, i: nat, keep: seq<bool>) returns (keep': seq<bool>)
    requires DurableBy(s, m, keep) && s.phase.Running? && Next(s, s', EndOp(i))
    ensures DurableBy(s', m, keep') && Decides(s, keep, keep')
  {
    if s'.phase.Committing? {
      keep' := keep + [false];
      var n := |s.begun|;
      assert (s.begun + [s.writes])[..n] == s.begun && keep'[..n] == keep;
    } else {
      FateSame(s, s', m, keep);
      keep' := keep;
    }
  }

  lemma FateStep<T>(s: Sys<T>, s': Sys<T>, step: Step<T>, im: Image<T>, keep: seq<bool>) returns (keep': seq<bool>)
    requires Inv(s, im) && Next(s, s', step) && DurableBy(s, Abs(im), keep)
    ensures DurableBy(s', Abs(im), keep') && Decides(s, keep, keep')
  {
    keep' := keep;
    match step
    case CommitWrite =>
      CommitPoint(s, s', im);
      keep' := FateCommitWrite(s, s', Abs(im), keep);
    case CommitReturn =>
      ReturnFacts(s, s', im);
      keep' := FateReturn(s, s', Abs(im), keep);
    case EndOp(i) => keep' := FateEndOp(s, s', Abs(im), i, keep);
    case BootWrite =>
      BootWriteImage(s, s');
      FateSame(s, s', Abs(im), keep);
    case BeginOp => FateSame(s, s', Abs(im), keep);
    case LogWrite(_, _, _) => FateSame(s, s', Abs(im), keep);
    case Crash => FateSame(s, s', Abs(im), keep);
    case BootDone => FateSame(s, s', Abs(im), keep);
  }

  lemma InvStep<T>(s: Sys<T>, s': Sys<T>, step: Step<T>, im: Image<T>)
    requires Inv(s, im) && Next(s, s', step)
    ensures Inv(s', im)
  {
    ShapeStep(s, s', step, im);
    OpNumbersStep(s, s', step);
    PhaseStep(s, s', step, im);
  }

  lemma InvInit<T>(s: Sys<T>, im: Image<T>)
    requires Init(s, im)
    ensures Inv(s, im) && DurableBy(s, Abs(im), []) && Reservation(s)
  {
    assert im.home + TxMap<T>([], []) == im.home;
    assert im.head[..0] == [] && im.slots[..|im.head|][..0] == [];
  }

  /** Every state of every run satisfies the invariant. */
  lemma {:induction false} InvRun<T>(run: seq<Sys<T>>, steps: seq<Step<T>>, im: Image<T>, i: nat)
    requires IsRun(run, steps, im) && i < |run|
    ensures Inv(run[i], im)
  {
    if i == 0 {
      InvInit(run[0], im);
    } else {
      InvRun(run, steps, im, i - 1);
      assert StepAt(run, steps, i - 1);
      InvStep(run[i - 1], run[i], steps[i - 1], im);
    }
  }

  /** Fates only accumulate from a state in which no commit is under way. */
  lemma {:induction false} FateFrom<T>(run: seq<Sys<T>>, steps: seq<Step<T>>, im: Image<T>, i: nat, j: nat,
                                       keep: seq<bool>)
    returns (keep': seq<bool>)
    requires IsRun(run, steps, im) && i <= j < |run| && !run[i].phase.Committing?
    requires WellFormed(im) && DurableBy(run[i], Abs(im), keep)
    ensures DurableBy(run[j], Abs(im), keep') && keep <= keep'
    ensures run[j].phase.Committing? ==> |keep| < |keep'|
  {
    keep' := keep;
    if i < j {
      var mid := FateFrom(run, steps, im, i, j - 1, keep);
      InvRun(run, steps, im, j - 1);
      assert StepAt(run, steps, j - 1);
      keep' := FateAfter(run[j - 1], run[j], steps[j - 1], im, keep, mid);
    }
  }

  lemma FateAfter<T>(s: Sys<T>, s': Sys<T>, step: Step<T>, im: Image<T>, keep: seq<bool>, mid: seq<bool>)
    returns (keep': seq<bool>)
    requires Inv(s, im) && Next(s, s', step) && DurableBy(s, Abs(im), mid)
    requires keep <= mid && (s.phase.Committing? ==> |keep| < |mid|)
    ensures DurableBy(s', Abs(im), keep') && keep <= keep' && (s'.phase.Committing? ==> |keep| < |keep'|)
  {
    keep' := FateStep(s, s', step, im, mid);
    assert |mid| == |s.begun| && |keep'| == |s'.begun|;
    FatesKept(s, keep, mid, keep');
  }

  lemma FatesKept<T>(s: Sys<T>, keep: seq<bool>, mid: seq<bool>, keep': seq<bool>)
    requires keep <= mid && (s.phase.Committing? ==> |keep| < |mid|) && Decides(s, mid, keep')
    ensures keep <= keep'
  {
    forall i | 0 <= i < |keep|
      ensures keep'[i] == keep[i]
    {
      if s.phase.Committing? {
        assert keep'[..|mid| - 1][i] == mid[..|mid| - 1][i];
      }
    }
  }

  lemma FateRun<T>(run: seq<Sys<T>>, steps: seq<Step<T>>, im: Image<T>, i: nat) returns (keep: seq<bool>)
    requires IsRun(run, steps, im) && i < |run|
    ensures WellFormed(im) && DurableBy(run[i], Abs(im), keep)
  {
    InvInit(run[0], im);
    keep := FateFrom(run, steps, im, 0, i, []);
  }

  /** A running system has an empty header, so its home blocks are what the disk stands for. */
  lemma HomeIsMeaning<T>(s: Sys<T>, m: map<nat, T>, keep: seq<bool>)
    requires PhaseOk(s) && s.phase.Running? && DurableBy(s, m, keep)
    ensures Explains(m, s, s.im.home, keep)
  {
    assert Abs(s.im) == s.im.home + TxMap<T>([], s.im.slots[..0]);
    assert s.im.home + map[] == s.im.home;
  }

  /** Crash atomicity over whole runs. However the run interleaved operations,
      commits, crashes and interrupted recoveries, whenever the system is up the
      home blocks are the initial state plus some of the transactions handed to
      commit(), each whole and in order, with none missing whose commit() returned. */
  lemma CrashAtomicity<T>(run: seq<Sys<T>>, steps: seq<Step<T>>, im: Image<T>, i: nat)
    requires IsRun(run, steps, im) && i < |run| && run[i].phase.Running?
    ensures exists keep :: Explains(Abs(im), run[i], run[i].im.home, keep)
    // and the cache holds exactly the net effect of the writes not yet committed
    ensures run[i].cache == Overlay(run[i].writes)
  {
    InvRun(run, steps, im, i);
    var keep := FateRun(run, steps, im, i);
    HomeIsMeaning(run[i], Abs(im), keep);
  }

  /** A transaction's fate is final once the system is up: at any later time it is up, crashes or
      not, the same transactions are in and the same are out, and only newer ones are added. */
  lemma FateIsFinal<T>(run: seq<Sys<T>>, steps: seq<Step<T>>, im: Image<T>, i: nat, j: nat)
    requires IsRun(run, steps, im) && i <= j < |run| && run[i].phase.Running? && run[j].phase.Running?
    ensures exists keep, keep' :: keep <= keep'
              && Explains(Abs(im), run[i], run[i].im.home, keep) && Explains(Abs(im), run[j], run[j].im.home, keep')
  {
    InvRun(run, steps, im, i);
    InvRun(run, steps, im, j);
    var keep := FateRun(run, steps, im, i);
    var keep' := FateFrom(run, steps, im, i, j, keep);
    HomeIsMeaning(run[i], Abs(im), keep);
    HomeIsMeaning(run[j], Abs(im), keep');
  }

  /** Group commit never splits an operation: no operation has writes in two
      transactions, and a commit has no operation outstanding. */
  lemma OperationsAreWhole<T>(run: seq<Sys<T>>, steps: seq<Step<T>>, im: Image<T>, i: nat)
    requires IsRun(run, steps, im) && i < |run|
    ensures forall a, b, e, f :: 0 <= a < b < |run[i].begun| && e in run[i].begun[a] && f in run[i].begun[b]
              ==> e.op != f.op
    ensures run[i].phase.Committing? ==> run[i].ops == []
    ensures forall a, e, o :: 0 <= a < |run[i].begun| && e in run[i].begun[a] && o in run[i].ops ==> e.op != o.id
  {
    InvRun(run, steps, im, i);
  }

  // -------------------------------------------- whole commits and recoveries

  lemma Extend<T>(run: seq<Sys<T>>, steps: seq<Step<T>>, im: Image<T>, s': Sys<T>, step: Step<T>)
    requires IsRun(run, steps, im) && Next(run[|run| - 1], s', step)
    ensures IsRun(run + [s'], steps + [step], im)
    ensures ThriftyRun(run) && Thrifty(s') ==> ThriftyRun(run + [s'])
  {
    forall i: nat
      ensures StepAt(run + [s'], steps + [step], i)
    {
      assert StepAt(run, steps, i);
    }
  }

  /** The machine may stop in any state of a run. */
  lemma StopAt<T>(run: seq<Sys<T>>, steps: seq<Step<T>>, im: Image<T>, i: nat)
    returns (run': seq<Sys<T>>, steps': seq<Step<T>>)
    requires IsRun(run, steps, im) && i < |run|
    ensures IsRun(run', steps', im) && run'[|run'| - 1].phase == Booting(0) && run'[|run'| - 1].im == run[i].im
    ensures run'[|run'| - 1].begun == run[i].begun && run'[|run'| - 1].returned == run[i].returned
  {
    var s := run[i];
    var s' := s.(phase := Booting(0), base := s.im, lh := [], cache := map[], ops := [], writes := [],
                 epoch := s.nextOp);
    run', steps' := run[..i + 1], steps[..i];
    forall j: nat
      ensures StepAt(run', steps', j)
    {
      assert StepAt(run, steps, j);
    }
    Extend(run', steps', im, s', Crash);
    run', steps' := run' + [s'], steps' + [Crash];
  }

  /** One log_write by operation i. */
  lemma WriteRun<T>(run: seq<Sys<T>>, steps: seq<Step<T>>, im: Image<T>, s: Sys<T>, i: nat, b: nat, x: T)
    returns (run': seq<Sys<T>>, steps': seq<Step<T>>, s': Sys<T>)
    requires IsRun(run, steps, im) && s == run[|run| - 1] && s.phase.Running? && i < |s.ops|
    requires b in s.im.home && !TooBig(|s.lh|, |s.im.slots|)
    ensures IsRun(run', steps', im) && run' == run + [s'] && steps' == steps + [LogWrite(i, b, x)]
    ensures
      && s'.phase.Running? && s'.im == s.im && s'.lh == AddEntry(s.lh, b) && s'.cache == s.cache[b := x]
      && |s'.ops| == |s.ops|
  {
    s' := s.(lh := AddEntry(s.lh, b), cache := s.cache[b := x],
             writes := s.writes + [Entry(s.ops[i].id, b, x)],
             ops := s.ops[i := s.ops[i].(added := s.ops[i].added + if b in s.lh then 0 else 1)]);
    Extend(run, steps, im, s', LogWrite(i, b, x));
    run', steps' := run + [s'], steps + [LogWrite(i, b, x)];
  }

  /** One operation ends; the last one hands the transaction to commit(). */
  lemma EndRun<T>(run: seq<Sys<T>>, steps: seq<Step<T>>, im: Image<T>, s: Sys<T>, i: nat)
    returns (run': seq<Sys<T>>, steps': seq<Step<T>>, s': Sys<T>)
    requires IsRun(run, steps, im) && s == run[|run| - 1] && s.phase.Running? && i < |s.ops|
    ensures IsRun(run', steps', im) && run' == run + [s'] && steps' == steps + [EndOp(i)]
    ensures s'.im == s.im && s'.lh == s.lh && s'.cache == s.cache && |s'.ops| == |s.ops| - 1
    ensures if |s.ops| == 1 then s'.phase == Committing(0) && s'.base == s.im else s'.phase.Running?
  {
    var t := s.(ops := s.ops[..i] + s.ops[i + 1..]);
    s' := if t.ops == [] then t.(phase := Committing(0), base := s.im, begun := s.begun + [s.writes]) else t;
    Extend(run, steps, im, s', EndOp(i));
    run', steps' := run + [s'], steps + [EndOp(i)];
  }

  lemma CommitNext<T>(t: Sys<T>, s: Sys<T>, data: seq<T>, k: nat) returns (t': Sys<T>)
    requires s.lh != [] && (forall b :: b in s.lh ==> b in s.cache) && data == Data(s.lh, s.cache)
    requires s.base.head == [] && GoodEntries(s.base, s.lh) && k < 2 * |s.lh| + 2
    requires t == s.(im := CommitImage(s.base, s.lh, data, k), phase := Committing(k))
    ensures Next(t, t', CommitWrite)
    ensures t' == s.(im := CommitImage(s.base, s.lh, data, k + 1), phase := Committing(k + 1))
  {
    CommitStep(s.base, s.lh, data, k);
    t' := s.(im := CommitImage(s.base, s.lh, data, k + 1), phase := Committing(k + 1));
  }

  /** The first k writes of a commit, one step each. */
  lemma {:induction false} CommitRun<T>(run: seq<Sys<T>>, steps: seq<Step<T>>, im: Image<T>, s: Sys<T>, data: seq<T>,
                                        k: nat)
    returns (run': seq<Sys<T>>, steps': seq<Step<T>>)
    requires IsRun(run, steps, im) && s == run[|run| - 1] && s.phase == Committing(0) && s.lh != []
    requires (forall b :: b in s.lh ==> b in s.cache) && data == Data(s.lh, s.cache) && k <= 2 * |s.lh| + 2
    ensures |s.lh| <= |s.base.slots| && IsRun(run', steps', im) && run <= run'
    ensures run'[|run'| - 1] == s.(im := CommitImage(s.base, s.lh, data, k), phase := Committing(k))
  {
    InvRun(run, steps, im, |run| - 1);
    if k == 0 {
      run', steps' := run, steps;
    } else {
      run', steps' := CommitRun(run, steps, im, s, data, k - 1);
      var t' := CommitNext(run'[|run'| - 1], s, data, k - 1);
      Extend(run', steps', im, t', CommitWrite);
      run', steps' := run' + [t'], steps' + [CommitWrite];
    }
  }

  /** A whole commit() and its return. */
  lemma CommitWhole<T>(run: seq<Sys<T>>, steps: seq<Step<T>>, im: Image<T>, s: Sys<T>, data: seq<T>)
    returns (run': seq<Sys<T>>, steps': seq<Step<T>>)
    requires IsRun(run, steps, im) && s == run[|run| - 1] && s.phase == Committing(0)
    requires (forall b :: b in s.lh ==> b in s.cache) && data == Data(s.lh, s.cache) && s.im == s.base
    ensures |s.lh| <= |s.im.slots| && IsRun(run', steps', im) && run <= run'
    ensures var t := run'[|run'| - 1];
      && t.phase.Running? && t.lh == [] && t.cache == map[] && t.ops == s.ops
      && CommitsTo(s.im, s.lh, data, t.im)
      && t.begun == s.begun && t.returned == s.returned + {|s.begun| - 1}
  {
    InvRun(run, steps, im, |run| - 1);
    run', steps' := run, steps;
    if s.lh != [] {
      run', steps' := CommitRun(run, steps, im, s, data, 2 * |s.lh| + 2);
      CommitWriteAt(s.lh, data, 0);
    }
    var t := run'[|run'| - 1];
    var t' := t.(phase := Running, lh := [], cache := map[], writes := [], epoch := t.nextOp,
                 returned := t.returned + {|t.begun| - 1});
    Extend(run', steps', im, t', CommitReturn);
    run', steps' := run' + [t'], steps' + [CommitReturn];
  }

  /** The first k writes of a recovery, one step each. */
  lemma {:induction false} BootRun<T>(run: seq<Sys<T>>, steps: seq<Step<T>>, im: Image<T>, s: Sys<T>, k: nat)
    returns (run': seq<Sys<T>>, steps': seq<Step<T>>)
    requires IsRun(run, steps, im) && s == run[|run| - 1] && s.phase == Booting(0)
    requires WellFormed(s.base) && k <= |s.base.head| + 1
    ensures IsRun(run', steps', im) && run <= run' && (ThriftyRun(run) ==> ThriftyRun(run'))
    ensures run'[|run'| - 1] == s.(im := RecoverImage(s.base, k), phase := Booting(k))
  {
    InvRun(run, steps, im, |run| - 1);
    if k == 0 {
      run', steps' := run, steps;
    } else {
      run', steps' := BootRun(run, steps, im, s, k - 1);
      var t := run'[|run'| - 1];
      RecoverStep(s.base, k - 1);
      var t' := t.(im := RecoverImage(s.base, k), phase := Booting(k));
      Extend(run', steps', im, t', BootWrite);
      run', steps' := run' + [t'], steps' + [BootWrite];
    }
  }

  /** A whole recovery. */
  lemma BootWhole<T>(run: seq<Sys<T>>, steps: seq<Step<T>>, im: Image<T>, s: Sys<T>)
    returns (run': seq<Sys<T>>, steps': seq<Step<T>>)
    requires IsRun(run, steps, im) && s == run[|run| - 1] && s.phase == Booting(0)
    ensures WellFormed(s.im) && IsRun(run', steps', im) && run <= run' && (ThriftyRun(run) ==> ThriftyRun(run'))
    ensures var t := run'[|run'| - 1];
      && t.phase.Running? && t.lh == [] && t.ops == [] && t.cache == map[]
      && t.im == RecoverImage(s.im, |s.im.head| + 1) && t.begun == s.begun && t.returned == s.returned
  {
    InvRun(run, steps, im, |run| - 1);
    BootBase(s);
    run', steps' := BootRun(run, steps, im, s, |s.base.head| + 1);
    var t := run'[|run'| - 1];
    RecoverStep(s.base, 0);
    var t' := t.(phase := Running);
    Extend(run', steps', im, t', BootDone);
    run', steps' := run' + [t'], steps' + [BootDone];
  }

  lemma BootBase<T>(s: Sys<T>)
    requires PhaseOk(s) && s.phase == Booting(0)
    ensures s.im == s.base
  {
    assert s.base.home + TxMap<T>([], []) == s.base.home;
    assert s.base.head[..0] == [] && s.base.slots[..|s.base.head|][..0] == [];
  }

  // -------------------------------------------------------- log reservation

  /** While operations keep to what they reserved, the reservations fit the log. */
  lemma {:induction false} ReservationRun<T>(run: seq<Sys<T>>, steps: seq<Step<T>>, im: Image<T>, i: nat)
    requires IsRun(run, steps, im) && ThriftyRun(run) && i < |run|
    ensures Reservation(run[i])
  {
    if i == 0 {
      InvInit(run[0], im);
    } else {
      ReservationRun(run, steps, im, i - 1);
      assert StepAt(run, steps, i - 1);
      ReservationStep(run[i - 1], run[i], steps[i - 1]);
    }
  }

  /** Reservation: in every run whose operations keep to their budget, a block not yet in the
      header finds room when the log area has a slot for every header entry. */
  lemma NewBlockNeverPanics<T>(run: seq<Sys<T>>, steps: seq<Step<T>>, im: Image<T>, k: nat, i: nat)
    requires IsRun(run, steps, im) && ThriftyRun(run) && k < |run| && |im.slots| >= LOGSIZE
    requires i < |run[k].ops| && run[k].ops[i].added < MAXOPBLOCKS
    ensures !TooBig(|run[k].lh|, |run[k].im.slots|)
  {
    InvRun(run, steps, im, k);
    ReservationRun(run, steps, im, k);
    RoomForNewBlock(run[k], im, i);
  }

  // -------------------------------------- where log_write's panic is reachable

  /** Entries operation i has added when three operations in turn fill the log. */
  function Share(k: nat, i: nat): nat {
    if k <= i * MAXOPBLOCKS then 0
    else if k >= (i + 1) * MAXOPBLOCKS then MAXOPBLOCKS
    else k - i * MAXOPBLOCKS
  }

  ghost predicate Filled<T>(s: Sys<T>, im: Image<T>, blocks: seq<nat>, k: nat) {
    && k <= |blocks| && s.phase.Running? && s.lh == blocks[..k]
    && s.ops == [Op(0, Share(k, 0)), Op(1, Share(k, 1)), Op(2, Share(k, 2))]
    && |s.im.slots| == |im.slots| && s.im.home.Keys == im.home.Keys
  }

  lemma BootAndBegin<T>(im: Image<T>) returns (run: seq<Sys<T>>, steps: seq<Step<T>>)
    requires WellFormed(im) && im.head == []
    ensures IsRun(run, steps, im) && ThriftyRun(run) && Filled(run[|run| - 1], im, [], 0)
  {
    var s0 := Sys(im, im, [], map[], [], 0, 0, [], Booting(0), [], {});
    var s1 := s0.(phase := Booting(1));
    var s2 := s1.(phase := Running);
    var s3 := s2.(ops := [Op(0, 0)], nextOp := 1);
    var s4 := s3.(ops := [Op(0, 0), Op(1, 0)], nextOp := 2);
    var s5 := s4.(ops := [Op(0, 0), Op(1, 0), Op(2, 0)], nextOp := 3);
    run, steps := [s0, s1, s2, s3, s4, s5], [BootWrite, BootDone, BeginOp, BeginOp, BeginOp];
    assert s3.ops == s2.ops + [Op(0, 0)];
    assert s4.ops == s3.ops + [Op(1, 0)];
    assert s5.ops == s4.ops + [Op(2, 0)];
  }

  lemma FillOne<T>(s: Sys<T>, im: Image<T>, blocks: seq<nat>, x: T, k: nat) returns (s': Sys<T>, step: Step<T>)
    requires Filled(s, im, blocks, k) && k < |blocks| && Distinct(blocks) && blocks[k] in im.home
    requires k < LOGSIZE && k < |im.slots|
    ensures Next(s, s', step) && Filled(s', im, blocks, k + 1)
  {
    var i, b := k / MAXOPBLOCKS, blocks[k];
    assert b !in s.lh;
    assert blocks[..k + 1] == blocks[..k] + [b];
    step := LogWrite(i, b, x);
    s' := s.(lh := AddEntry(s.lh, b), cache := s.cache[b := x],
             writes := s.writes + [Entry(s.ops[i].id, b, x)],
             ops := s.ops[i := s.ops[i].(added := s.ops[i].added + 1)]);
  }

  /** Three operations, each within its budget, can put k blocks in the header. */
  lemma {:induction false} FillRun<T>(im: Image<T>, blocks: seq<nat>, x: T, k: nat)
    returns (run: seq<Sys<T>>, steps: seq<Step<T>>)
    requires WellFormed(im) && im.head == [] && Distinct(blocks)
    requires forall b :: b in blocks ==> b in im.home
    requires k <= |blocks| && k <= LOGSIZE && k <= |im.slots|
    ensures IsRun(run, steps, im) && ThriftyRun(run) && Filled(run[|run| - 1], im, blocks, k)
  {
    if k == 0 {
      run, steps := BootAndBegin(im);
    } else {
      run, steps := FillRun(im, blocks, x, k - 1);
      var s', step := FillOne(run[|run| - 1], im, blocks, x, k - 1);
      Extend(run, steps, im, s', step);
      run, steps := run + [s'], steps + [step];
    }
  }

  /** Some run whose operations keep to their budget ends in s. */
  ghost predicate Reachable<T(!new)>(s: Sys<T>, im: Image<T>) {
    exists run: seq<Sys<T>>, steps :: IsRun(run, steps, im) && ThriftyRun(run) && run[|run| - 1] == s
  }

  /** Some run reaches a state where an operation within its budget would panic
      writing block b: one not in the header when `isNew`, else one already there. */
  ghost predicate CanPanic<T(!new)>(im: Image<T>, isNew: bool) {
    exists s: Sys<T>, i: nat, b: nat :: Reachable(s, im) && PanicsAt(s, i, b, isNew)
  }

  ghost predicate PanicsAt<T>(s: Sys<T>, i: nat, b: nat, isNew: bool) {
    && s.phase.Running? && i < |s.ops| && b in s.im.home
    && (isNew <==> b !in s.lh) && (isNew ==> s.ops[i].added < MAXOPBLOCKS)
    && TooBig(|s.lh|, |s.im.slots|)
  }

  /** For a block not yet in the header the panic is unreachable exactly when the
      log area (nlog - 1 slots) is at least LOGSIZE long. */
  lemma NewBlockPanicIff<T(!new)>(im: Image<T>, blocks: seq<nat>, x: T)
    requires WellFormed(im) && im.head == [] && Distinct(blocks) && |blocks| >= LOGSIZE
    requires forall b :: b in blocks ==> b in im.home
    ensures CanPanic(im, true) <==> |im.slots| < LOGSIZE
  {
    if |im.slots| < LOGSIZE {
      var k := |im.slots|;
      var run, steps := FillRun(im, blocks, x, k);
      assert blocks[k] !in blocks[..k];
      assert Reachable(run[|run| - 1], im);
      assert PanicsAt(run[|run| - 1], k / MAXOPBLOCKS, blocks[k], true);
    } else {
      forall s: Sys<T>, i: nat, b: nat | Reachable(s, im) && PanicsAt(s, i, b, true)
        ensures false
      {
        var run: seq<Sys<T>>, steps :| IsRun(run, steps, im) && ThriftyRun(run) && run[|run| - 1] == s;
        NewBlockNeverPanics(run, steps, im, |run| - 1, i);
      }
    }
  }

  /** Rewriting a block already in the header can panic whatever the log's size,
      because the test for a full log comes before the search for the block. */
  lemma AbsorbedBlockCanPanic<T(!new)>(im: Image<T>, blocks: seq<nat>, x: T)
    requires WellFormed(im) && im.head == [] && Distinct(blocks) && |blocks| >= LOGSIZE && |im.slots| > 0
    requires forall b :: b in blocks ==> b in im.home
    ensures CanPanic(im, false)
  {
    var k := if |im.slots| < LOGSIZE then |im.slots| else LOGSIZE;
    var run, steps := FillRun(im, blocks, x, k);
    assert blocks[0] in blocks[..k];
    assert Reachable(run[|run| - 1], im);
    assert PanicsAt(run[|run| - 1], 0, blocks[0], false);
  }
}
