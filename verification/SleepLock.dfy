/** Sleep-locks over sleep/wakeup, as interleaved steps of any number of processes.
    Spin-locks are explicit: the sleep-lock's inner lock and every process's p->lock. */
module SleepLock {
  import opened Common

  /** Where a process stands in acquiresleep, sleep, releasesleep or wakeup. */
  datatype Pc =
    | Out                 // not inside any of them, not holding the lock
    | Acquire             // acquiresleep: at acquire(&lk->lk)
    | Test                // inner lock held, at `while (lk->locked)`
    | SleepEnter          // sleep(): at acquire(&p->lock)
    | SleepRelease        // p->lock held too, at release(lk)
    | SleepSet            // only p->lock held, at p->chan = chan; p->state = SLEEPING
    | Switching           // in sched(), the scheduler not yet past release(&p->lock)
    | Asleep              // off the CPU
    | Woken               // back from sched() with p->lock held
    | Take                // inner lock held, lk->locked seen 0
    | TakeDone            // lk->locked = 1 and lk->pid set, at release(&lk->lk)
    | Holding             // acquiresleep returned
    | Release             // releasesleep: at acquire(&lk->lk)
    | Clear               // inner lock held, at lk->locked = 0; lk->pid = 0
    | Scan(i: nat)        // wakeup: at slot i of the process table
    | Slot(i: nat)        // wakeup: slot i's p->lock held
    | ScanDone            // wakeup returned, at release(&lk->lk)

  datatype RunState = RUNNING | RUNNABLE | SLEEPING
  datatype Chan = NoChan | ThisLock | OtherChan

  datatype Proc = Proc(pc: Pc, state: RunState, chan: Chan)

  datatype Sys = Sys(
    procs: seq<Proc>,
    plock: seq<Option<nat>>,   // who holds each p->lock
    spin: Option<nat>,         // who holds lk->lk
    locked: bool,              // lk->locked
    holder: Option<nat>)       // lk->pid, as a process slot

  predicate HoldsSpin(pc: Pc) {
    pc.Test? || pc.SleepEnter? || pc.SleepRelease? || pc.Take? || pc.TakeDone?
    || pc.Clear? || pc.Scan? || pc.Slot? || pc.ScanDone?
  }

  predicate HoldsOwn(pc: Pc) {
    pc.SleepRelease? || pc.SleepSet? || pc.Switching? || pc.Woken?
  }

  /** From lk->locked = 1 up to lk->locked = 0. */
  predicate Owns(pc: Pc) {
    pc.TakeDone? || pc.Holding? || pc.Release? || pc.Clear?
  }

  /** Holding the inner lock with lk->locked known to be 0. */
  predicate Clears(pc: Pc) {
    pc.Take? || pc.Scan? || pc.Slot? || pc.ScanDone?
  }

  /** Committed to sleeping: the inner lock is gone and no wakeup has come yet. */
  predicate Sleepy(p: Proc) {
    p.pc.SleepSet? || (p.state.SLEEPING? && p.chan == ThisLock)
  }

  function Go(s: Sys, p: nat, pc: Pc): Sys
    requires p < |s.procs|
  {
    s.(procs := s.procs[p := s.procs[p].(pc := pc)])
  }

  /** One step of process p's own code. */
  ghost predicate ProcStep(s: Sys, s': Sys, p: nat) {
    && p < |s.procs| == |s.plock| && s.procs[p].state.RUNNING?
    && match s.procs[p].pc
       case Out => s' == Go(s, p, Acquire)
       case Acquire => s.spin.None? && s' == Go(s, p, Test).(spin := Some(p))
       case Test => s' == Go(s, p, if s.locked then SleepEnter else Take)
       case SleepEnter => s.plock[p].None? && s' == Go(s, p, SleepRelease).(plock := s.plock[p := Some(p)])
       case SleepRelease => s' == Go(s, p, SleepSet).(spin := None)
       case SleepSet => s' == s.(procs := s.procs[p := Proc(Switching, SLEEPING, ThisLock)])
       case Switching => false
       case Asleep => false
       case Woken => s' == s.(procs := s.procs[p := Proc(Acquire, RUNNING, NoChan)], plock := s.plock[p := None])
       case Take => s' == Go(s, p, TakeDone).(locked := true, holder := Some(p))
       case TakeDone => s' == Go(s, p, Holding).(spin := None)
       case Holding => s' == Go(s, p, Release)
       case Release => s.spin.None? && s' == Go(s, p, Clear).(spin := Some(p))
       case Clear => s' == Go(s, p, Scan(0)).(locked := false, holder := None)
       case Scan(i) =>
         if i >= |s.procs| then s' == Go(s, p, ScanDone)
         else if i == p then s' == Go(s, p, Scan(i + 1))
         else s.plock[i].None? && s' == Go(s, p, Slot(i)).(plock := s.plock[i := Some(p)])
       case Slot(i) =>
         && i < |s.procs| && i != p
         && var q := s.procs[i];
            var t := Go(s, p, Scan(i + 1)).(plock := s.plock[i := None]);
            s' == if q.state.SLEEPING? && q.chan == ThisLock
                  then t.(procs := t.procs[i := q.(state := RUNNABLE)]) else t
       case ScanDone => s' == Go(s, p, Out).(spin := None)
  }

  /** The scheduler releases p->lock of a process that just switched away. */
  ghost predicate SchedRelease(s: Sys, s': Sys, p: nat) {
    && p < |s.procs| == |s.plock| && s.procs[p].pc.Switching?
    && s' == Go(s, p, Asleep).(plock := s.plock[p := None])
  }

  /** The scheduler picks a RUNNABLE process; one that slept resumes inside sleep()
      with its p->lock held, any other resumes where yield() left it. */
  ghost predicate Dispatch(s: Sys, s': Sys, p: nat) {
    && p < |s.procs| == |s.plock| && s.procs[p].state.RUNNABLE? && s.plock[p].None?
    && s' == if s.procs[p].pc.Asleep?
             then s.(procs := s.procs[p := s.procs[p].(pc := Woken, state := RUNNING)], plock := s.plock[p := Some(p)])
             else s.(procs := s.procs[p := s.procs[p].(state := RUNNING)])
  }

  /** yield() from a timer interrupt; a CPU holding a spin-lock takes none. */
  ghost predicate Yield(s: Sys, s': Sys, p: nat) {
    && p < |s.procs| == |s.plock| && s.procs[p].state.RUNNING? && s.plock[p].None?
    && !HoldsSpin(s.procs[p].pc) && !HoldsOwn(s.procs[p].pc)
    && s' == s.(procs := s.procs[p := s.procs[p].(state := RUNNABLE)])
  }

  /** kill() reaching slot p: a sleeper is made RUNNABLE whatever it waits for. */
  ghost predicate Kill(s: Sys, s': Sys, p: nat) {
    && p < |s.procs| == |s.plock| && s.plock[p].None?
    && s' == if s.procs[p].state.SLEEPING? then s.(procs := s.procs[p := s.procs[p].(state := RUNNABLE)]) else s
  }

  /** A process outside this lock's code sleeps or is woken on another channel. */
  ghost predicate Elsewhere(s: Sys, s': Sys, p: nat) {
    && p < |s.procs| == |s.plock| && (s.procs[p].pc.Out? || s.procs[p].pc.Holding?) && s.plock[p].None?
    && exists q: Proc :: q.pc == s.procs[p].pc && q.chan != ThisLock && s' == s.(procs := s.procs[p := q])
  }

  ghost predicate Next(s: Sys, s': Sys) {
    exists p: nat ::
      || ProcStep(s, s', p) || SchedRelease(s, s', p) || Dispatch(s, s', p)
      || Yield(s, s', p) || Kill(s, s', p) || Elsewhere(s, s', p)
  }

  ghost predicate Init(s: Sys) {
    && |s.plock| == |s.procs| && s.spin.None? && !s.locked && s.holder.None?
    && (forall p :: 0 <= p < |s.procs| ==> s.procs[p] == Proc(Out, RUNNING, NoChan) && s.plock[p].None?)
  }

  // ------------------------------------------------------------- invariant

  ghost predicate SpinOk(s: Sys) {
    && (forall p: nat :: p < |s.procs| && HoldsSpin(s.procs[p].pc) ==> s.spin == Some(p))
    && (s.spin.Some? ==> s.spin.value < |s.procs| && HoldsSpin(s.procs[s.spin.value].pc))
  }

  /** What p->locks say at process p, with its own lock and as the holder of another's. */
  predicate PlockAt(s: Sys, p: nat) {
    p < |s.procs| == |s.plock| ==>
      && (HoldsOwn(s.procs[p].pc) ==> s.plock[p] == Some(p))
      && (s.procs[p].pc.Slot? ==>
            s.procs[p].pc.i < |s.procs| && s.procs[p].pc.i != p && s.plock[s.procs[p].pc.i] == Some(p))
      && (s.plock[p].Some? ==>
            var q := s.plock[p].value;
            q < |s.procs| && if q == p then HoldsOwn(s.procs[p].pc) else s.procs[q].pc == Slot(p))
  }

  ghost predicate PlockOk(s: Sys) {
    |s.plock| == |s.procs| && forall p: nat {:trigger PlockAt(s, p)} :: PlockAt(s, p)
  }

  ghost predicate LockOk(s: Sys) {
    && (s.locked <==> s.holder.Some?)
    && (s.holder.Some? ==> s.holder.value < |s.procs| && Owns(s.procs[s.holder.value].pc))
    && (forall p: nat :: p < |s.procs| && Owns(s.procs[p].pc) ==> s.holder == Some(p))
    && (forall p: nat :: p < |s.procs| && (s.procs[p].pc.SleepEnter? || s.procs[p].pc.SleepRelease?) ==> s.locked)
    && (forall p: nat :: p < |s.procs| && Clears(s.procs[p].pc) ==> !s.locked)
  }

  /** How a process's run state and channel go with its position. */
  predicate ProcOk(q: Proc) {
    && (q.state.SLEEPING? && q.chan == ThisLock ==> q.pc.Switching? || q.pc.Asleep?)
    && (q.pc.Switching? ==> q.state.SLEEPING? && q.chan == ThisLock)
    && (q.pc.Asleep? ==> !q.state.RUNNING? && q.chan == ThisLock)
    && (HoldsSpin(q.pc) || q.pc.SleepSet? || q.pc.Woken? ==> q.state.RUNNING?)
  }

  ghost predicate StateOk(s: Sys) {
    forall p: nat :: p < |s.procs| ==> ProcOk(s.procs[p])
  }

  /** The releaser q has yet to look at slot p. */
  predicate Ahead(pc: Pc, p: nat) {
    (pc.Scan? && pc.i <= p) || (pc.Slot? && pc.i <= p)
  }

  /** No lost wakeup: once the lock is clear, whoever is committed to sleeping is
      still ahead of the releaser's scan. */
  ghost predicate WakeOk(s: Sys) {
    forall p: nat :: p < |s.procs| && Sleepy(s.procs[p]) && !s.locked ==>
      s.spin.Some? && s.spin.value < |s.procs| && Ahead(s.procs[s.spin.value].pc, p)
  }

  ghost predicate Inv(s: Sys) {
    SpinOk(s) && PlockOk(s) && LockOk(s) && StateOk(s) && WakeOk(s)
  }

  lemma InvInit(s: Sys)
    requires Init(s)
    ensures Inv(s)
  {
  }

  lemma SpinFrame(s: Sys, s': Sys, p: nat, q: Proc)
    requires SpinOk(s) && p < |s.procs| && s'.procs == s.procs[p := q]
    requires HoldsSpin(q.pc) == HoldsSpin(s.procs[p].pc) && s'.spin == s.spin
    ensures SpinOk(s')
  {
  }

  lemma SpinMoves(s: Sys, s': Sys, p: nat, q: Proc)
    requires SpinOk(s) && p < |s.procs| && s'.procs == s.procs[p := q]
    requires HoldsSpin(q.pc) != HoldsSpin(s.procs[p].pc) && (HoldsSpin(q.pc) ==> s.spin.None?)
    requires s'.spin == if HoldsSpin(q.pc) then Some(p) else None
    ensures SpinOk(s')
  {
  }

  lemma SpinStep(s: Sys, s': Sys, p: nat)
    requires SpinOk(s) && ProcStep(s, s', p)
    ensures SpinOk(s')
  {
    var pc := s.procs[p].pc;
    if pc.Slot? {
      var t := Go(s, p, Scan(pc.i + 1));
      SpinFrame(s, t, p, t.procs[p]);
      SpinFrame(t, s', pc.i, s'.procs[pc.i]);
    } else if HoldsSpin(s'.procs[p].pc) == HoldsSpin(pc) {
      SpinFrame(s, s', p, s'.procs[p]);
    } else {
      SpinMoves(s, s', p, s'.procs[p]);
    }
  }

  /** Changing one process without touching what its pc says about p->locks. */
  lemma PlockFrame(s: Sys, s': Sys, p: nat, q: Proc)
    requires PlockOk(s) && p < |s.procs| && s'.plock == s.plock && s'.procs == s.procs[p := q]
    requires HoldsOwn(q.pc) == HoldsOwn(s.procs[p].pc) && !q.pc.Slot? && !s.procs[p].pc.Slot?
    ensures PlockOk(s')
  {
    forall k: nat
      ensures PlockAt(s', k)
    {
      assert PlockAt(s, k) && PlockAt(s, p);
    }
  }

  /** Process p takes or drops its own p->lock. */
  lemma PlockOwn(s: Sys, s': Sys, p: nat, q: Proc)
    requires PlockOk(s) && p < |s.procs| && s'.procs == s.procs[p := q]
    requires !q.pc.Slot? && !s.procs[p].pc.Slot? && HoldsOwn(q.pc) != HoldsOwn(s.procs[p].pc)
    requires s.plock[p] == (if HoldsOwn(s.procs[p].pc) then Some(p) else None)
    requires s'.plock == s.plock[p := if HoldsOwn(q.pc) then Some(p) else None]
    ensures PlockOk(s')
  {
    forall k: nat
      ensures PlockAt(s', k)
    {
      assert PlockAt(s, k) && PlockAt(s, p);
    }
  }

  /** wakeup moves on to a slot, taking its p->lock, or past one, dropping it. */
  lemma PlockScan(s: Sys, s': Sys, p: nat, i: nat)
    requires PlockOk(s) && p < |s.procs| && i < |s.procs| && i != p
    requires s.procs[p].pc == Scan(i) && s.plock[i].None?
    requires s'.procs == s.procs[p := s.procs[p].(pc := Slot(i))] && s'.plock == s.plock[i := Some(p)]
    ensures PlockOk(s')
  {
    forall k: nat
      ensures PlockAt(s', k)
    {
      assert PlockAt(s, k) && PlockAt(s, p) && PlockAt(s, i);
    }
  }

  lemma PlockSlot(s: Sys, s': Sys, p: nat, i: nat)
    requires PlockOk(s) && p < |s.procs| && s.procs[p].pc == Slot(i)
    requires s'.procs == s.procs[p := s.procs[p].(pc := Scan(i + 1))] && i < |s.plock| && s'.plock == s.plock[i := None]
    ensures PlockOk(s')
  {
    forall k: nat
      ensures PlockAt(s', k)
    {
      assert PlockAt(s, k) && PlockAt(s, p) && PlockAt(s, i);
    }
  }

  lemma PlockSlotStep(s: Sys, s': Sys, p: nat)
    requires PlockOk(s) && ProcStep(s, s', p) && s.procs[p].pc.Slot?
    ensures PlockOk(s')
  {
    var pc := s.procs[p].pc;
    var t := Go(s, p, Scan(pc.i + 1)).(plock := s.plock[pc.i := None]);
    assert PlockAt(s, p);
    PlockSlot(s, t, p, pc.i);
    PlockSameProcs(t, s', pc.i, s'.procs[pc.i]);
  }

  lemma PlockStep(s: Sys, s': Sys, p: nat)
    requires PlockOk(s) && ProcStep(s, s', p)
    ensures PlockOk(s')
  {
    var pc := s.procs[p].pc;
    if pc.Slot? {
      PlockSlotStep(s, s', p);
    } else if pc.Scan? && pc.i < |s.procs| && pc.i != p {
      PlockScan(s, s', p, pc.i);
    } else if pc.SleepEnter? || pc.Woken? {
      assert PlockAt(s, p);
      PlockOwn(s, s', p, s'.procs[p]);
    } else {
      PlockFrame(s, s', p, s'.procs[p]);
    }
  }

  lemma LockFrame(s: Sys, s': Sys, p: nat, q: Proc)
    requires LockOk(s) && p < |s.procs| && s'.procs == s.procs[p := q] && s'.locked == s.locked && s'.holder == s.holder
    requires Owns(q.pc) == Owns(s.procs[p].pc)
    requires q.pc.SleepEnter? || q.pc.SleepRelease? ==> s.locked
    requires Clears(q.pc) ==> !s.locked
    ensures LockOk(s')
  {
  }

  lemma LockStep(s: Sys, s': Sys, p: nat)
    requires SpinOk(s) && LockOk(s) && ProcStep(s, s', p)
    ensures LockOk(s')
  {
    var pc := s.procs[p].pc;
    if pc.Take? || pc.Clear? {
      LockMoves(s, s', p);
    } else if pc.Slot? {
      var t := Go(s, p, Scan(pc.i + 1));
      LockFrame(s, t, p, t.procs[p]);
      LockFrame(t, s', pc.i, s'.procs[pc.i]);
    } else {
      LockStays(s, s', p);
      LockFrame(s, s', p, s'.procs[p]);
    }
  }

  /** Every other step leaves lk->locked and its owner alone. */
  lemma LockStays(s: Sys, s': Sys, p: nat)
    requires LockOk(s) && ProcStep(s, s', p) && !s.procs[p].pc.Take? && !s.procs[p].pc.Clear? && !s.procs[p].pc.Slot?
    ensures s'.procs == s.procs[p := s'.procs[p]] && s'.locked == s.locked && s'.holder == s.holder
    ensures Owns(s'.procs[p].pc) == Owns(s.procs[p].pc)
    ensures s'.procs[p].pc.SleepEnter? || s'.procs[p].pc.SleepRelease? ==> s.locked
    ensures Clears(s'.procs[p].pc) ==> !s.locked
  {
  }

  /** lk->locked changes only under the inner lock, so no one else relies on it. */
  lemma LockMoves(s: Sys, s': Sys, p: nat)
    requires SpinOk(s) && LockOk(s) && ProcStep(s, s', p) && (s.procs[p].pc.Take? || s.procs[p].pc.Clear?)
    ensures LockOk(s')
  {
  }

  lemma StateFrame(s: Sys, s': Sys, p: nat, q: Proc)
    requires StateOk(s) && p < |s.procs| && s'.procs == s.procs[p := q] && ProcOk(q)
    ensures StateOk(s')
  {
  }

  lemma OwnStepOk(s: Sys, s': Sys, p: nat)
    requires ProcStep(s, s', p) && ProcOk(s.procs[p]) && !s.procs[p].pc.Slot?
    ensures s'.procs == s.procs[p := s'.procs[p]] && ProcOk(s'.procs[p])
  {
  }

  /** A sleeper whose p->lock wakeup holds is fully off the CPU. */
  lemma SlotTargetOk(s: Sys, p: nat)
    requires StateOk(s) && PlockOk(s) && p < |s.procs| && s.procs[p].pc.Slot?
    ensures s.procs[p].pc.i < |s.procs| && s.procs[p].pc.i != p
    ensures var q := s.procs[s.procs[p].pc.i];
      ProcOk(q) && (q.state.SLEEPING? && q.chan == ThisLock ==> ProcOk(q.(state := RUNNABLE)))
  {
    var i := s.procs[p].pc.i;
    assert PlockAt(s, p) && PlockAt(s, i);
  }

  lemma StateStep(s: Sys, s': Sys, p: nat)
    requires StateOk(s) && PlockOk(s) && ProcStep(s, s', p)
    ensures StateOk(s')
  {
    var pc := s.procs[p].pc;
    if pc.Slot? {
      SlotTargetOk(s, p);
      var t := Go(s, p, Scan(pc.i + 1));
      StateFrame(s, t, p, t.procs[p]);
      StateFrame(t, s', pc.i, s'.procs[pc.i]);
    } else {
      OwnStepOk(s, s', p);
      StateFrame(s, s', p, s'.procs[p]);
    }
  }

  lemma WakeStep(s: Sys, s': Sys, p: nat)
    requires Inv(s) && ProcStep(s, s', p)
    ensures WakeOk(s')
  {
    var pc := s.procs[p].pc;
    assert PlockAt(s, p);
    if pc.Slot? {
      assert PlockAt(s, pc.i);
    }
  }

  lemma ProcStepInv(s: Sys, s': Sys, p: nat)
    requires Inv(s) && ProcStep(s, s', p)
    ensures Inv(s')
  {
    SpinStep(s, s', p);
    PlockStep(s, s', p);
    LockStep(s, s', p);
    StateStep(s, s', p);
    WakeStep(s, s', p);
  }

  /** The scheduler, timer and kill change one process and at most its p->lock, never
      the position in the lock's code that the other parts of the invariant speak of. */
  lemma OutsideFrame(s: Sys, s': Sys, p: nat, q: Proc)
    requires SpinOk(s) && LockOk(s) && WakeOk(s) && p < |s.procs|
    requires s'.procs == s.procs[p := q] && s'.spin == s.spin && s'.locked == s.locked && s'.holder == s.holder
    requires
      || q.pc == s.procs[p].pc || (!HoldsSpin(q.pc) && !HoldsSpin(s.procs[p].pc) && !Owns(q.pc) && !Owns(s.procs[p].pc))
    requires Sleepy(q) ==> Sleepy(s.procs[p])
    ensures SpinOk(s') && LockOk(s') && WakeOk(s')
  {
  }

  lemma OutsideState(s: Sys, s': Sys, p: nat)
    requires StateOk(s) && PlockOk(s)
    requires SchedRelease(s, s', p) || Dispatch(s, s', p) || Yield(s, s', p) || Kill(s, s', p) || Elsewhere(s, s', p)
    ensures StateOk(s')
  {
    assert PlockAt(s, p);
  }

  lemma OutsideStep(s: Sys, s': Sys, p: nat)
    requires Inv(s)
    requires SchedRelease(s, s', p) || Dispatch(s, s', p) || Yield(s, s', p) || Kill(s, s', p) || Elsewhere(s, s', p)
    ensures Inv(s')
  {
    var q := s'.procs[p];
    OutsideState(s, s', p);
    assert s'.procs == s.procs[p := q];
    OutsideFrame(s, s', p, q);
    if SchedRelease(s, s', p) || (Dispatch(s, s', p) && s.procs[p].pc.Asleep?) {
      assert PlockAt(s, p);
      PlockOwn(s, s', p, q);
    } else if s.procs[p].pc.Slot? {
      PlockSameProcs(s, s', p, q);
    } else {
      PlockFrame(s, s', p, q);
    }
  }

  lemma PlockSameProcs(s: Sys, s': Sys, p: nat, q: Proc)
    requires PlockOk(s) && p < |s.procs| && s'.plock == s.plock && s'.procs == s.procs[p := q] && q.pc == s.procs[p].pc
    ensures PlockOk(s')
  {
    forall k: nat
      ensures PlockAt(s', k)
    {
      assert PlockAt(s, k) && PlockAt(s, p);
    }
  }

  lemma NextInv(s: Sys, s': Sys)
    requires Inv(s) && Next(s, s')
    ensures Inv(s')
  {
    var p: nat :|
      || ProcStep(s, s', p) || SchedRelease(s, s', p) || Dispatch(s, s', p)
      || Yield(s, s', p) || Kill(s, s', p) || Elsewhere(s, s', p);
    if ProcStep(s, s', p) {
      ProcStepInv(s, s', p);
    } else {
      OutsideStep(s, s', p);
    }
  }

  ghost predicate IsRun(run: seq<Sys>) {
    run != [] && Init(run[0]) && forall i :: 0 <= i < |run| - 1 ==> Next(run[i], run[i + 1])
  }

  lemma {:induction false} InvRun(run: seq<Sys>, i: nat)
    requires IsRun(run) && i < |run|
    ensures Inv(run[i])
  {
    if i == 0 {
      InvInit(run[0]);
    } else {
      InvRun(run, i - 1);
      NextInv(run[i - 1], run[i]);
    }
  }

  /** In every state of every run at most one process holds the sleep-lock, and
      lk->locked with lk->pid names exactly that process. */
  lemma MutualExclusion(run: seq<Sys>, i: nat, p: nat, q: nat)
    requires IsRun(run) && i < |run| && p < |run[i].procs| && q < |run[i].procs|
    ensures Owns(run[i].procs[p].pc) && Owns(run[i].procs[q].pc) ==> p == q
    ensures Owns(run[i].procs[p].pc) <==> run[i].locked && run[i].holder == Some(p)
  {
    InvRun(run, i);
  }

  /** No lost wakeup: whenever the lock is free and nobody is inside its inner
      spin-lock, no process sleeps on it or is about to. */
  lemma NoLostWakeup(run: seq<Sys>, i: nat, p: nat)
    requires IsRun(run) && i < |run| && p < |run[i].procs|
    requires !run[i].locked && run[i].spin.None?
    ensures !(run[i].procs[p].state.SLEEPING? && run[i].procs[p].chan == ThisLock)
    ensures !run[i].procs[p].pc.SleepSet?
  {
    InvRun(run, i);
  }
}
