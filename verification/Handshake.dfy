/** The parent and its children of the first project: children are started and ended by a
    command table, and take turns at shared memory through one semaphore each and one for
    the parent. */
module Handshake {
  import opened Common

  const MAX_CHILDREN: nat := 100

  /** One step of the command table. */
  datatype Command = Nothing | Start(name: nat) | Stop(name: nat) | Exit

  /** Where the parent is: at the top of a step; choosing a child; done with the step; waiting on its
      own semaphore, to choose or to end the step; past the loop; out with an error. */
  datatype Parent = Begin | Choose | Next | AwaitChoose | AwaitNext | Over | Failed

  /** Starting: forked and picking a semaphore. Idle: waiting on it. Woken: at shared memory. */
  datatype Mode = Starting | Idle | Woken | Gone
  datatype Child = Child(mode: Mode, slot: nat)

  datatype Entry = Entry(pid: nat, name: nat)

  datatype State = State(
    step: nat, parent: Parent,
    running: nat,            // no_of_currently_running_processes
    table: seq<Entry>,       // child_pid_name
    pids: seq<nat>,          // the pid table in shared memory: who uses which semaphore
    command: nat,            // the pid told to end, 0 for none
    parSem: nat, sems: seq<nat>,
    kids: map<nat, Child>)

  // ------------------------------------------------------ the active set

  /** choose_random_active_child's replay of the table up to and including a step. */
  function Active(cmds: seq<Command>, n: nat): set<nat>
    requires n <= |cmds|
  {
    if n == 0 then {} else
    match cmds[n - 1]
    case Start(x) => Active(cmds, n - 1) + {x}
    case Stop(x) => Active(cmds, n - 1) - {x}
    case _ => Active(cmds, n - 1)
  }

  /** Tables that never start an active process, with names 1 to 99 and at most MAX_CHILDREN starts. */
  ghost predicate GoodTable(cmds: seq<Command>) {
    && (forall i :: 0 <= i < |cmds| && cmds[i].Start? ==>
          1 <= cmds[i].name < MAX_CHILDREN && cmds[i].name !in Active(cmds, i))
    && (forall i :: 0 <= i < |cmds| && cmds[i].Stop? ==> 1 <= cmds[i].name < MAX_CHILDREN)
    && Starts(cmds, |cmds|) <= MAX_CHILDREN
  }

  function Starts(cmds: seq<Command>, n: nat): nat
    requires n <= |cmds|
  {
    if n == 0 then 0 else Starts(cmds, n - 1) + if cmds[n - 1].Start? then 1 else 0
  }

  // ----------------------------------------------------- the invariant

  /** Where the right to touch shared memory is: with the parent, on its way to the parent,
      on its way through semaphore j, or with a child. */
  datatype Token = AtParent | ToParent | ToChild(j: nat) | AtChild(pid: nat)

  predicate AtWork(p: Parent) { p == Begin || p == Choose || p == Next }
  predicate Waits(p: Parent) { p == AwaitChoose || p == AwaitNext }

  predicate SemOk(s: State, t: Token, j: nat) { j < |s.sems| ==> s.sems[j] == if t == ToChild(j) then 1 else 0 }

  predicate KidOk(s: State, t: Token, pid: nat) {
    pid in s.kids ==> (s.kids[pid].mode == Starting || s.kids[pid].mode == Woken <==> t == AtChild(pid))
  }

  /** Exactly one holder of the token, and each semaphore's count says whether it is on its way there. */
  ghost predicate OneToken(s: State, t: Token) {
    && (AtWork(s.parent) <==> t == AtParent) && (AtWork(s.parent) || Waits(s.parent))
    && s.parSem == (if t == ToParent then 1 else 0)
    && (t.ToChild? ==> t.j < |s.sems|) && (t.AtChild? ==> t.pid in s.kids)
    && (forall j: nat {:trigger SemOk(s, t, j)} :: SemOk(s, t, j))
    && (forall pid: nat {:trigger KidOk(s, t, pid)} :: KidOk(s, t, pid))
  }

  type Live = map<nat, nat>   // active children: name to pid

  predicate Listed(s: State, live: Live, j: nat) {
    j < |s.table| && s.table[j].pid != 0 ==> s.table[j].name in live && live[s.table[j].name] == s.table[j].pid
  }

  predicate Unlike(s: State, i: nat, j: nat) {
    i < j < |s.table| && s.table[i].pid != 0 && s.table[j].pid != 0 ==> s.table[i].name != s.table[j].name
  }

  predicate Blank(s: State, j: nat) { j < |s.table| && s.table[j].pid == 0 ==> s.table[j].name == 0 }

  ghost predicate HasEntry(s: State, live: Live, n: nat) { n in live ==> Entry(live[n], n) in s.table }

  /** The child table lists exactly the active children. */
  ghost predicate TableOk(s: State, live: Live) {
    && (forall j: nat {:trigger Listed(s, live, j)} :: Listed(s, live, j))
    && (forall i: nat, j: nat {:trigger Unlike(s, i, j)} :: Unlike(s, i, j))
    && (forall j: nat {:trigger Blank(s, j)} :: Blank(s, j))
    && (forall n: nat {:trigger HasEntry(s, live, n)} :: HasEntry(s, live, n))
  }

  ghost predicate IsLive(live: Live, pid: nat) { exists n :: n in live && live[n] == pid }

  predicate Lives(s: State, live: Live, n: nat) {
    n in live ==> n != 0 && live[n] != 0 && live[n] in s.kids && s.kids[live[n]].mode != Gone && live[n] != s.command
  }

  predicate OwnPid(live: Live, n: nat, m: nat) { n in live && m in live && n != m ==> live[n] != live[m] }

  /** A child that has its semaphore is named at its place in the pid table. */
  predicate Seated(s: State, live: Live, n: nat) {
    n in live && live[n] in s.kids && s.kids[live[n]].mode != Starting ==>
      s.kids[live[n]].slot < |s.pids| && s.pids[s.kids[live[n]].slot] == live[n]
  }

  ghost predicate SlotOk(s: State, live: Live, j: nat) {
    j < |s.pids| && s.pids[j] != 0 ==>
      && s.pids[j] in s.kids && s.kids[s.pids[j]].slot == j && s.kids[s.pids[j]].mode != Starting
      && IsLive(live, s.pids[j])
  }

  /** Children that are not active are gone, except the one just told to end. */
  ghost predicate Ended(s: State, live: Live, pid: nat) {
    pid in s.kids && s.kids[pid].mode != Gone ==> IsLive(live, pid) || pid == s.command
  }

  ghost predicate KidsOk(s: State, live: Live) {
    && 0 !in s.kids
    && (forall n: nat {:trigger Lives(s, live, n)} :: Lives(s, live, n))
    && (forall n: nat, m: nat {:trigger OwnPid(live, n, m)} :: OwnPid(live, n, m))
    && (forall n: nat {:trigger Seated(s, live, n)} :: Seated(s, live, n))
    && (forall j: nat {:trigger SlotOk(s, live, j)} :: SlotOk(s, live, j))
    && (forall pid: nat {:trigger Ended(s, live, pid)} :: Ended(s, live, pid))
  }

  /** A child told to end is the one the token is going to. */
  ghost predicate EndingOk(s: State, t: Token) {
    s.command != 0 ==>
      && s.command in s.kids && s.kids[s.command].slot < |s.sems| && |s.pids| == |s.sems|
      && s.pids[s.kids[s.command].slot] == 0
      && (|| (s.kids[s.command].mode == Idle && t == ToChild(s.kids[s.command].slot))
          || (s.kids[s.command].mode == Woken && t == AtChild(s.command)))
  }

  /** The semaphore the token goes through has a child waiting behind it. */
  ghost predicate Behind(s: State, t: Token) {
    t.ToChild? && s.command == 0 ==> t.j < |s.pids| && s.pids[t.j] != 0
  }

  /** How many commands of the table have taken effect. */
  function Reached(s: State): nat { if s.parent == Begin then s.step else s.step + 1 }

  ghost predicate CountsOk(cmds: seq<Command>, max: nat, s: State, live: Live) {
    && |s.pids| == |s.sems| == max && s.step < |cmds|
    && s.running == |live| <= max && live.Keys == Active(cmds, Reached(s)) && |s.table| == Starts(cmds, Reached(s))
  }

  datatype Part = Tokens | Table | Kids | Ending | Queue | Counts

  ghost predicate Holds(cmds: seq<Command>, max: nat, s: State, t: Token, live: Live, k: Part) {
    match k
    case Tokens => OneToken(s, t)
    case Table => TableOk(s, live)
    case Kids => KidsOk(s, live)
    case Ending => EndingOk(s, t)
    case Queue => Behind(s, t)
    case Counts => CountsOk(cmds, max, s, live)
  }

  ghost predicate Good(cmds: seq<Command>, max: nat, s: State, t: Token, live: Live) {
    forall k: Part {:trigger Holds(cmds, max, s, t, live, k)} :: Holds(cmds, max, s, t, live, k)
  }

  lemma Parts(cmds: seq<Command>, max: nat, s: State, t: Token, live: Live)
    requires Good(cmds, max, s, t, live)
    ensures
      && OneToken(s, t) && TableOk(s, live) && KidsOk(s, live) && EndingOk(s, t) && Behind(s, t)
      && CountsOk(cmds, max, s, live)
  {
    assert Holds(cmds, max, s, t, live, Tokens) && Holds(cmds, max, s, t, live, Table);
    assert Holds(cmds, max, s, t, live, Kids);
    assert Holds(cmds, max, s, t, live, Ending) && Holds(cmds, max, s, t, live, Queue);
    assert Holds(cmds, max, s, t, live, Counts);
  }

  // -------------------------------------------------- steps of the parent

  function Forked(s: State, name: nat, pid: nat): State {
    s.(parent := AwaitChoose, running := s.running + 1, table := s.table + [Entry(pid, name)],
       kids := s.kids[pid := Child(Starting, 0)])
  }

  /** Starting a child hands it the token. */
  lemma ForkStep(cmds: seq<Command>, max: nat, s: State, live: Live, name: nat, pid: nat)
    requires
      && Good(cmds, max, s, AtParent, live) && GoodTable(cmds) && s.parent == Begin && s.step < |cmds|
      && cmds[s.step] == Start(name)
    requires pid != 0 && pid !in s.kids && s.running < max
    ensures Good(cmds, max, Forked(s, name, pid), AtChild(pid), live[name := pid])
  {
    Parts(cmds, max, s, AtParent, live);
    var e, t, live' := Forked(s, name, pid), AtChild(pid), live[name := pid];
    assert name != 0 && name !in live;
    ForkToken(s, e, t, name, pid);
    ForkTable(s, live, e, live', name, pid);
    ForkKids(s, live, e, live', name, pid);
    assert live'.Keys == live.Keys + {name};
    assert Holds(cmds, max, e, t, live', Tokens) && Holds(cmds, max, e, t, live', Counts);
  }

  lemma ForkToken(s: State, e: State, t: Token, name: nat, pid: nat)
    requires
      && OneToken(s, AtParent) && s.parent == Begin && pid !in s.kids && e == Forked(s, name, pid) && t == AtChild(pid)
    ensures OneToken(e, t)
  {
    forall j: nat
      ensures SemOk(e, t, j) && KidOk(e, t, j)
    {
      assert SemOk(s, AtParent, j) && KidOk(s, AtParent, j);
    }
  }

  lemma ForkTable(s: State, live: Live, e: State, live': Live, name: nat, pid: nat)
    requires
      && TableOk(s, live) && name !in live && e.table == s.table + [Entry(pid, name)] && live' == live[name := pid]
      && pid != 0
    ensures TableOk(e, live')
  {
    forall j: nat
      ensures Listed(e, live', j) && Blank(e, j)
    {
      assert Listed(s, live, j) && Blank(s, j);
    }
    forall i: nat, j: nat
      ensures Unlike(e, i, j)
    {
      assert Unlike(s, i, j) && Listed(s, live, i);
    }
    forall n: nat
      ensures HasEntry(e, live', n)
    {
      assert HasEntry(s, live, n);
      assert e.table[|s.table|] == Entry(pid, name);
    }
  }

  lemma ForkKids(s: State, live: Live, e: State, live': Live, name: nat, pid: nat)
    requires
      && KidsOk(s, live) && name !in live && name != 0 && live' == live[name := pid] && pid != 0 && pid !in s.kids
      && s.command == 0
    requires e.kids == s.kids[pid := Child(Starting, 0)] && e.pids == s.pids && e.command == s.command
    ensures KidsOk(e, live')
  {
    forall n: nat
      ensures Lives(e, live', n) && Seated(e, live', n)
    {
      assert Lives(s, live, n) && Seated(s, live, n);
    }
    forall n: nat, m: nat
      ensures OwnPid(live', n, m)
    {
      assert OwnPid(live, n, m) && Lives(s, live, n) && Lives(s, live, m);
    }
    forall p: nat
      ensures IsLive(live, p) ==> IsLive(live', p)
    {
      if n :| n in live && live[n] == p {
        assert live'[n] == p;
      }
    }
    assert live'[name] == pid;
    forall j: nat
      ensures SlotOk(e, live', j) && Ended(e, live', j)
    {
      assert SlotOk(s, live, j) && Ended(s, live, j);
    }
  }

  /** The parent's wait ends and it has the token. */
  function Resumed(s: State): State
    requires s.parSem > 0
  {
    s.(parSem := s.parSem - 1, parent := if s.parent == AwaitNext then Next else Choose)
  }

  lemma ResumeStep(cmds: seq<Command>, max: nat, s: State, t: Token, live: Live)
    requires Good(cmds, max, s, t, live) && Waits(s.parent) && s.parSem > 0
    ensures Good(cmds, max, Resumed(s), AtParent, live)
  {
    Parts(cmds, max, s, t, live);
    var e := Resumed(s);
    SameKids(s, e, live);
    SameTable(s, e, live);
    forall j: nat
      ensures SemOk(e, AtParent, j) && KidOk(e, AtParent, j)
    {
      assert SemOk(s, t, j) && KidOk(s, t, j);
    }
    assert OneToken(e, AtParent);
    assert Holds(cmds, max, e, AtParent, live, Tokens) && Holds(cmds, max, e, AtParent, live, Counts);
  }

  lemma SameKids(s: State, e: State, live: Live)
    requires KidsOk(s, live) && e.kids == s.kids && e.pids == s.pids && e.command == s.command
    ensures KidsOk(e, live)
  {
    forall n: nat
      ensures Lives(e, live, n) && Seated(e, live, n) && SlotOk(e, live, n) && Ended(e, live, n)
    {
      assert Lives(s, live, n) && Seated(s, live, n) && SlotOk(s, live, n) && Ended(s, live, n);
    }
  }

  lemma SameTable(s: State, e: State, live: Live)
    requires TableOk(s, live) && e.table == s.table
    ensures TableOk(e, live)
  {
    forall j: nat
      ensures Listed(e, live, j) && Blank(e, j) && HasEntry(e, live, j)
    {
      assert Listed(s, live, j) && Blank(s, j) && HasEntry(s, live, j);
    }
    forall i: nat, j: nat
      ensures Unlike(e, i, j)
    {
      assert Unlike(s, i, j);
    }
  }

  /** Moves of the parent alone, while it has the token. */
  lemma ParentStep(cmds: seq<Command>, max: nat, s: State, live: Live, e: State)
    requires Good(cmds, max, s, AtParent, live) && AtWork(e.parent) && e == s.(parent := e.parent, step := e.step)
    requires
      && e.step < |cmds| && Reached(e) <= |cmds| && Active(cmds, Reached(e)) == live.Keys
      && Starts(cmds, Reached(e)) == |s.table|
    ensures Good(cmds, max, e, AtParent, live)
  {
    Parts(cmds, max, s, AtParent, live);
    SameKids(s, e, live);
    SameTable(s, e, live);
    forall j: nat
      ensures SemOk(e, AtParent, j) && KidOk(e, AtParent, j)
    {
      assert SemOk(s, AtParent, j) && KidOk(s, AtParent, j);
    }
    assert OneToken(e, AtParent);
    assert Holds(cmds, max, e, AtParent, live, Tokens) && Holds(cmds, max, e, AtParent, live, Counts);
  }

  /** Waking the child at semaphore j hands it the token. */
  function Posted(s: State, j: nat, after: Parent): State
    requires j < |s.sems|
  {
    s.(parent := after, sems := s.sems[j := s.sems[j] + 1])
  }

  lemma PickStep(cmds: seq<Command>, max: nat, s: State, live: Live, j: nat)
    requires Good(cmds, max, s, AtParent, live) && s.parent == Choose && j < |s.sems| && j < |s.pids| && s.pids[j] != 0
    ensures Good(cmds, max, Posted(s, j, AwaitNext), ToChild(j), live)
  {
    Parts(cmds, max, s, AtParent, live);
    var e, t := Posted(s, j, AwaitNext), ToChild(j);
    SameKids(s, e, live);
    SameTable(s, e, live);
    forall k: nat
      ensures SemOk(e, t, k) && KidOk(e, t, k)
    {
      assert SemOk(s, AtParent, k) && KidOk(s, AtParent, k);
    }
    assert OneToken(e, t);
    assert Holds(cmds, max, e, t, live, Tokens) && Holds(cmds, max, e, t, live, Counts);
    assert Holds(cmds, max, e, t, live, Queue);
  }

  /** The entries of one name blanked out. */
  function Blanked(table: seq<Entry>, name: nat): (r: seq<Entry>)
    ensures |r| == |table| && forall j :: 0 <= j < |table| ==>
      r[j] == if table[j].name == name && table[j].pid != 0 then Entry(0, 0) else table[j]
  {
    if table == [] then []
    else
      var x := table[|table| - 1];
      Blanked(table[..|table| - 1], name) + [if x.name == name && x.pid != 0 then Entry(0, 0) else x]
  }

  /** Telling an active child to end: out of both tables, and its semaphore posted. */
  function Told(s: State, name: nat, pid: nat, j: nat): State
    requires j < |s.sems| && j < |s.pids| && s.running > 0
  {
    s.(parent := AwaitChoose, running := s.running - 1, table := Blanked(s.table, name), command := pid,
       pids := s.pids[j := 0], sems := s.sems[j := s.sems[j] + 1])
  }

  lemma TellStep(cmds: seq<Command>, max: nat, s: State, live: Live, name: nat, j: nat)
    requires
      && Good(cmds, max, s, AtParent, live) && s.parent == Begin && s.step < |cmds| && cmds[s.step] == Stop(name)
      && name in live
    requires j < |s.sems| && j < |s.pids| && s.pids[j] == live[name] && s.running > 0
    ensures Good(cmds, max, Told(s, name, live[name], j), ToChild(j), live - {name})
  {
    Parts(cmds, max, s, AtParent, live);
    var e, t, live' := Told(s, name, live[name], j), ToChild(j), live - {name};
    assert Lives(s, live, name) && SlotOk(s, live, j) && KidOk(s, AtParent, live[name]);
    forall k: nat
      ensures SemOk(e, t, k) && KidOk(e, t, k)
    {
      assert SemOk(s, AtParent, k) && KidOk(s, AtParent, k);
    }
    assert OneToken(e, t);
    TellTable(s, live, e, live', name);
    TellKids(s, live, e, live', name, j);
    assert live'.Keys == live.Keys - {name};
    assert |live.Keys| == |live'.Keys| + 1;
    assert Holds(cmds, max, e, t, live', Tokens) && Holds(cmds, max, e, t, live', Counts);
    assert Holds(cmds, max, e, t, live', Ending);
  }

  lemma TellTable(s: State, live: Live, e: State, live': Live, name: nat)
    requires TableOk(s, live) && e.table == Blanked(s.table, name) && live' == live - {name} && name != 0
    ensures TableOk(e, live')
  {
    forall j: nat
      ensures Listed(e, live', j) && Blank(e, j)
    {
      assert Listed(s, live, j) && Blank(s, j);
    }
    forall i: nat, j: nat
      ensures Unlike(e, i, j)
    {
      assert Unlike(s, i, j);
    }
    forall n: nat
      ensures HasEntry(e, live', n)
    {
      assert HasEntry(s, live, n);
      if n in live' {
        var k :| 0 <= k < |s.table| && s.table[k] == Entry(live[n], n);
        assert e.table[k] == s.table[k];
      }
    }
  }

  lemma TellKids(s: State, live: Live, e: State, live': Live, name: nat, j: nat)
    requires
      && KidsOk(s, live) && live' == live - {name} && name in live && j < |s.pids| && s.pids[j] == live[name]
      && s.command == 0
    requires e.kids == s.kids && e.pids == s.pids[j := 0] && e.command == live[name]
    ensures KidsOk(e, live')
  {
    forall n: nat
      ensures Lives(e, live', n) && Seated(e, live', n)
    {
      assert Lives(s, live, n) && Seated(s, live, n) && OwnPid(live, n, name);
    }
    forall n: nat, m: nat
      ensures OwnPid(live', n, m)
    {
      assert OwnPid(live, n, m);
    }
    forall p: nat
      ensures IsLive(live, p) && p != live[name] ==> IsLive(live', p)
    {
      if n :| n in live && live[n] == p {
        if p != live[name] {
          assert live'[n] == p;
        }
      }
    }
    forall k: nat
      ensures SlotOk(e, live', k) && Ended(e, live', k)
    {
      assert SlotOk(s, live, k) && Ended(s, live, k) && SlotOk(s, live, j);
    }
  }

  // ------------------------------------------------ steps of the children

  function Seat(s: State, pid: nat, j: nat): State
    requires j < |s.pids|
  {
    s.(pids := s.pids[j := pid], kids := s.kids[pid := Child(Idle, j)], parSem := s.parSem + 1)
  }

  /** A new child takes a free place in the pid table and gives the token back. */
  lemma SeatStep(cmds: seq<Command>, max: nat, s: State, t: Token, live: Live, pid: nat, j: nat)
    requires
      && Good(cmds, max, s, t, live) && pid in s.kids && s.kids[pid].mode == Starting && j < |s.pids| && s.pids[j] == 0
    ensures Good(cmds, max, Seat(s, pid, j), ToParent, live)
  {
    Parts(cmds, max, s, t, live);
    var e := Seat(s, pid, j);
    assert KidOk(s, t, pid);
    forall k: nat
      ensures SemOk(e, ToParent, k) && KidOk(e, ToParent, k)
    {
      assert SemOk(s, t, k) && KidOk(s, t, k);
    }
    assert OneToken(e, ToParent);
    SameTable(s, e, live);
    SeatKids(s, e, live, pid, j);
    assert Holds(cmds, max, e, ToParent, live, Tokens) && Holds(cmds, max, e, ToParent, live, Counts);
  }

  lemma SeatKids(s: State, e: State, live: Live, pid: nat, j: nat)
    requires
      && KidsOk(s, live) && pid in s.kids && s.kids[pid].mode == Starting && j < |s.pids| && s.pids[j] == 0
      && s.command == 0
    requires e.kids == s.kids[pid := Child(Idle, j)] && e.pids == s.pids[j := pid] && e.command == s.command
    ensures KidsOk(e, live)
  {
    assert Ended(s, live, pid);
    forall n: nat
      ensures Lives(e, live, n) && Seated(e, live, n)
    {
      assert Lives(s, live, n) && Seated(s, live, n);
    }
    forall k: nat
      ensures SlotOk(e, live, k) && Ended(e, live, k)
    {
      assert SlotOk(s, live, k) && Ended(s, live, k);
    }
  }

  /** A child in mode m from now on. */
  function Moved(s: State, pid: nat, m: Mode): State
    requires pid in s.kids
  {
    s.(kids := s.kids[pid := s.kids[pid].(mode := m)])
  }

  lemma MovedKids(s: State, e: State, live: Live, pid: nat, m: Mode)
    requires KidsOk(s, live) && pid in s.kids && s.kids[pid].mode != Starting && m != Starting
    requires e.kids == s.kids[pid := s.kids[pid].(mode := m)] && e.pids == s.pids
    requires if m == Gone then
        pid == s.command && e.command == 0
      else e.command == s.command && s.kids[pid].mode != Gone
    ensures KidsOk(e, live)
  {
    forall n: nat
      ensures Lives(e, live, n) && Seated(e, live, n)
    {
      assert Lives(s, live, n) && Seated(s, live, n);
    }
    forall k: nat
      ensures SlotOk(e, live, k) && Ended(e, live, k)
    {
      assert SlotOk(s, live, k) && Ended(s, live, k);
    }
  }

  function Woke(s: State, pid: nat): State
    requires pid in s.kids && s.kids[pid].slot < |s.sems| && s.sems[s.kids[pid].slot] > 0
  {
    Moved(s, pid, Woken).(sems := s.sems[s.kids[pid].slot := s.sems[s.kids[pid].slot] - 1])
  }

  lemma WakeStep(cmds: seq<Command>, max: nat, s: State, t: Token, live: Live, pid: nat)
    requires
      && Good(cmds, max, s, t, live) && pid in s.kids && s.kids[pid].mode == Idle && s.kids[pid].slot < |s.sems|
      && s.sems[s.kids[pid].slot] > 0
    ensures Good(cmds, max, Woke(s, pid), AtChild(pid), live)
  {
    Parts(cmds, max, s, t, live);
    var e, j := Woke(s, pid), s.kids[pid].slot;
    assert SemOk(s, t, j);
    forall k: nat
      ensures SemOk(e, AtChild(pid), k) && KidOk(e, AtChild(pid), k)
    {
      assert SemOk(s, t, k) && KidOk(s, t, k);
    }
    assert OneToken(e, AtChild(pid));
    SameTable(s, e, live);
    MovedKids(s, e, live, pid, Woken);
    WokenIsTold(s, t, live, pid);
    assert Holds(cmds, max, e, AtChild(pid), live, Tokens) && Holds(cmds, max, e, AtChild(pid), live, Counts);
    assert Holds(cmds, max, e, AtChild(pid), live, Ending);
  }

  /** While a child is told to end, no other child waits at its semaphore. */
  lemma WokenIsTold(s: State, t: Token, live: Live, pid: nat)
    requires
      && KidsOk(s, live) && EndingOk(s, t) && pid in s.kids && s.kids[pid].mode == Idle
      && t == ToChild(s.kids[pid].slot)
    ensures s.command == 0 || s.command == pid
  {
    assert Ended(s, live, pid);
    if IsLive(live, pid) {
      var n :| n in live && live[n] == pid;
      assert Seated(s, live, n) && Lives(s, live, n);
    }
  }

  /** A woken child prints, or ends if it was told to; either way it gives the token back. */
  function Answered(s: State, pid: nat): State
    requires pid in s.kids
  {
    if s.command != pid then Moved(s, pid, Idle).(parSem := s.parSem + 1)
    else Moved(s, pid, Gone).(parSem := s.parSem + 1, command := 0)
  }

  lemma AnswerStep(cmds: seq<Command>, max: nat, s: State, t: Token, live: Live, pid: nat)
    requires Good(cmds, max, s, t, live) && pid in s.kids && s.kids[pid].mode == Woken
    ensures Good(cmds, max, Answered(s, pid), ToParent, live)
  {
    Parts(cmds, max, s, t, live);
    var e := Answered(s, pid);
    assert KidOk(s, t, pid);
    forall k: nat
      ensures SemOk(e, ToParent, k) && KidOk(e, ToParent, k)
    {
      assert SemOk(s, t, k) && KidOk(s, t, k);
    }
    assert OneToken(e, ToParent);
    SameTable(s, e, live);
    MovedKids(s, e, live, pid, if s.command != pid then Idle else Gone);
    assert Holds(cmds, max, e, ToParent, live, Tokens) && Holds(cmds, max, e, ToParent, live, Counts);
  }

  // ------------------------------------------------------- what follows

  predicate Touching(s: State, pid: nat) {
    pid in s.kids && (s.kids[pid].mode == Starting || s.kids[pid].mode == Woken)
  }

  /** Before the broadcast at the end, at most one of the parent and the children is at shared memory. */
  lemma MutualExclusion(cmds: seq<Command>, max: nat, s: State, t: Token, live: Live, p: nat, q: nat)
    requires Good(cmds, max, s, t, live) && Touching(s, p)
    ensures !AtWork(s.parent) && (Touching(s, q) ==> p == q)
  {
    Parts(cmds, max, s, t, live);
    assert KidOk(s, t, p) && KidOk(s, t, q);
  }

  /** An injection from a to b. */
  lemma {:induction false} Inject(a: set<nat>, b: set<nat>, f: map<nat, nat>)
    requires f.Keys == a && (forall x :: x in a ==> f[x] in b) && forall x, y :: x in a && y in a && x != y ==>
      f[x] != f[y]
    ensures |a| <= |b|
    decreases |a|
  {
    if a != {} {
      var x :| x in a;
      Inject(a - {x}, b - {f[x]}, f - {x});
    }
  }

  ghost function NameOf(live: Live, pid: nat): (n: nat)
    requires IsLive(live, pid)
    ensures n in live && live[n] == pid
  {
    var n :| n in live && live[n] == pid;
    n
  }

  /** The places of the pid table in use. */
  ghost function Occupied(s: State): set<nat> { set j: nat | j < |s.pids| && s.pids[j] != 0 }

  /** A child that is starting always finds a free place. */
  lemma FreePlace(cmds: seq<Command>, max: nat, s: State, t: Token, live: Live, pid: nat)
    requires Good(cmds, max, s, t, live) && pid in s.kids && s.kids[pid].mode == Starting
    ensures exists j: nat :: j < |s.pids| && s.pids[j] == 0
  {
    Parts(cmds, max, s, t, live);
    assert KidOk(s, t, pid) && Ended(s, live, pid);
    var me := NameOf(live, pid);
    var o := Occupied(s);
    NamesOfPlaces(s, live, o, live.Keys - {me}, pid);
    assert |live.Keys - {me}| == |live| - 1;
    var rest := Below(max) - o;
    assert o + rest == Below(max) + o;
    SetSize(Below(max), o, rest);
    var j :| j in rest;
    assert j < |s.pids| && s.pids[j] == 0;
  }

  lemma SetSize(all: set<nat>, o: set<nat>, rest: set<nat>)
    requires rest == all - o && |o| < |all|
    ensures rest != {}
  {
    assert all == all * o + rest && o == all * o + (o - all);
  }

  lemma NamesOfPlaces(s: State, live: Live, o: set<nat>, names: set<nat>, pid: nat)
    requires KidsOk(s, live) && o == Occupied(s) && forall n :: n in live && live[n] != pid ==> n in names
    requires pid in s.kids ==> s.kids[pid].mode == Starting
    ensures |o| <= |names|
  {
    forall j | j in o
      ensures s.pids[j] in s.kids && IsLive(live, s.pids[j]) && s.pids[j] != pid && s.kids[s.pids[j]].slot == j
    {
      assert SlotOk(s, live, j);
    }
    Inject(o, names, map j | j in o :: NameOf(live, s.pids[j]));
  }

  /** With no child starting, the places in use are distinct and as many as there are running children. */
  lemma PlacesCount(cmds: seq<Command>, max: nat, s: State, t: Token, live: Live)
    requires Good(cmds, max, s, t, live) && forall p :: p in s.kids ==> s.kids[p].mode != Starting
    ensures |Occupied(s)| == s.running
    ensures forall i, j :: 0 <= i < j < |s.pids| && s.pids[i] != 0 ==> s.pids[i] != s.pids[j]
  {
    Parts(cmds, max, s, t, live);
    var o := Occupied(s);
    NamesOfPlaces(s, live, o, live.Keys, 0);
    forall n | n in live
      ensures live[n] in s.kids && s.kids[live[n]].slot in o && s.pids[s.kids[live[n]].slot] == live[n]
    {
      assert Lives(s, live, n) && Seated(s, live, n);
    }
    forall n, m | n in live && m in live && n != m
      ensures s.kids[live[n]].slot != s.kids[live[m]].slot
    {
      assert OwnPid(live, n, m);
    }
    Inject(live.Keys, o, map n | n in live :: s.kids[live[n]].slot);
    PlacesDiffer(s, live);
  }

  lemma PlacesDiffer(s: State, live: Live)
    requires KidsOk(s, live)
    ensures forall i, j :: 0 <= i < j < |s.pids| && s.pids[i] != 0 ==> s.pids[i] != s.pids[j]
  {
    forall i: nat, j: nat | i < j < |s.pids| && s.pids[i] != 0
      ensures s.pids[i] != s.pids[j]
    {
      assert SlotOk(s, live, i) && SlotOk(s, live, j);
    }
  }

  /** Some move is always possible: whoever has the token, or whoever it is going to, can go on. */
  lemma NoDeadlock(cmds: seq<Command>, max: nat, s: State, t: Token, live: Live)
    requires Good(cmds, max, s, t, live)
    ensures AtWork(s.parent) || (Waits(s.parent) && s.parSem > 0)
            || (exists p :: Touching(s, p)) || (exists p :: CanWake(s, p))
  {
    Parts(cmds, max, s, t, live);
    match t
    case AtParent =>
    case ToParent =>
    case AtChild(p) => assert KidOk(s, t, p); assert Touching(s, p);
    case ToChild(j) =>
      assert SemOk(s, t, j);
      var p := if s.command != 0 then s.command else s.pids[j];
      assert SlotOk(s, live, j) && KidOk(s, t, p);
      if s.command == 0 {
        var n := NameOf(live, p);
        assert Lives(s, live, n);
      }
      assert CanWake(s, p);
  }

  /** How much of the table is left, finer than steps: the parent's place in its step and where the token is. */
  function Left(cmds: seq<Command>, s: State, t: Token): nat {
    if s.step >= |cmds| || s.parent == Over || s.parent == Failed then 0 else
    10 * (|cmds| - s.step) +
    var way := if t.ToChild? then 2 else if t.AtChild? then 1 else 0;
    match s.parent
    case Begin => 9
    case AwaitChoose => 6 + way
    case Choose => 5
    case AwaitNext => 2 + way
    case _ => 1
  }

  /** A move that is possible shows where the token is. */
  lemma TokenThere(cmds: seq<Command>, max: nat, s: State, t: Token, live: Live, pid: nat)
    requires Good(cmds, max, s, t, live)
    ensures s.step < |cmds| && (s.parSem > 0 ==> t == ToParent) && (t != AtParent ==> Waits(s.parent))
    ensures pid in s.kids && (s.kids[pid].mode == Starting || s.kids[pid].mode == Woken) ==> t == AtChild(pid)
    ensures CanWake(s, pid) ==> t == ToChild(s.kids[pid].slot)
  {
    Parts(cmds, max, s, t, live);
    assert KidOk(s, t, pid);
    if CanWake(s, pid) {
      assert SemOk(s, t, s.kids[pid].slot);
    }
  }

  /** A process number that is not taken. */
  lemma {:induction false} Unused(pids: set<nat>, n: nat)
    requires n != 0
    ensures exists p: nat :: p >= n && p !in pids
    decreases |pids|
  {
    if n in pids {
      Unused(pids - {n}, n + 1);
      var p: nat :| p >= n + 1 && p !in pids - {n};
      assert p !in pids;
    }
  }

  predicate CanWake(s: State, pid: nat) {
    pid in s.kids && s.kids[pid].mode == Idle && s.kids[pid].slot < |s.sems| && s.sems[s.kids[pid].slot] > 0
  }

  lemma IgnoreStep(cmds: seq<Command>, max: nat, s: State, live: Live, name: nat, s': State)
    requires Good(cmds, max, s, AtParent, live) && s.parent == Begin && s.step + 1 < |cmds|
    requires cmds[s.step] == Stop(name) && name !in live && s' == s.(step := s.step + 1)
    ensures Good(cmds, max, s', AtParent, live)
  {
    Parts(cmds, max, s, AtParent, live);
    assert Active(cmds, s.step + 1) == live.Keys;
    ParentStep(cmds, max, s, live, s');
  }

  // ------------------------------------------------------------ the program

  /** The replay loop of choose_random_active_child. */
  method Replay(cmds: seq<Command>, n: nat) returns (active: seq<bool>)
    requires GoodTable(cmds) && n <= |cmds|
    ensures |active| == MAX_CHILDREN && forall x: nat :: x < MAX_CHILDREN ==> (active[x] <==> x in Active(cmds, n))
  {
    active := seq(MAX_CHILDREN, _ => false);
    var i := 0;
    while i < n
      invariant i <= n && |active| == MAX_CHILDREN && forall x: nat :: x < MAX_CHILDREN ==>
        (active[x] <==> x in Active(cmds, i))
    {
      if cmds[i].Start? {
        active := active[cmds[i].name := true];
      } else if cmds[i].Stop? {
        active := active[cmds[i].name := false];
      }
      i := i + 1;
    }
  }

  /** Its second loop and the draw: the r-th active child, counted modulo their number. */
  method PickActive(active: seq<bool>, r: nat) returns (c: Option<nat>)
    ensures c == None <==> forall x :: 0 <= x < |active| ==> !active[x]
    ensures c.Some? ==> c.value < |active| && active[c.value]
  {
    var found: seq<nat> := [];
    var i := 0;
    while i < |active|
      invariant i <= |active| && (found == [] <==> forall x :: 0 <= x < i ==> !active[x])
      invariant forall k :: 0 <= k < |found| ==> found[k] < |active| && active[found[k]]
    {
      if active[i] {
        found := found + [i];
      }
      i := i + 1;
    }
    if |found| == 0 {
      return None;
    }
    c := Some(found[r % |found|]);
  }

  /** The scan of the child table for a T command: matching entries are blanked, the last one's pid kept. */
  method BlankOut(table: seq<Entry>, name: nat) returns (r: seq<Entry>, pid: nat)
    ensures r == Blanked(table, name)
    ensures pid == 0 <==> forall j :: 0 <= j < |table| ==> !(table[j].name == name && table[j].pid != 0)
    ensures pid != 0 ==> Entry(pid, name) in table
  {
    r, pid := table, 0;
    var j := 0;
    while j < |table|
      invariant j <= |table| == |r| && forall k :: j <= k < |table| ==> r[k] == table[k]
      invariant forall k ::
        0 <= k < j ==> r[k] == if table[k].name == name && table[k].pid != 0 then Entry(0, 0) else table[k]
      invariant pid == 0 <==> forall k :: 0 <= k < j ==> !(table[k].name == name && table[k].pid != 0)
      invariant pid != 0 ==> Entry(pid, name) in table
    {
      if r[j].name == name && r[j].pid != 0 {
        pid := r[j].pid;
        assert table[j] == Entry(pid, name);
        r := r[j := Entry(0, 0)];
      }
      j := j + 1;
    }
    assert r == Blanked(table, name);
  }

  /** The scan of the child table for the child drawn: the last entry with its name. */
  method PidOf(table: seq<Entry>, name: nat) returns (pid: nat)
    requires exists j :: 0 <= j < |table| && table[j].name == name
    ensures Entry(pid, name) in table
  {
    pid := 0;
    ghost var found := false;
    var j := 0;
    while j < |table|
      invariant
        && j <= |table| && (found ==> Entry(pid, name) in table)
        && (found <==> exists k :: 0 <= k < j && table[k].name == name)
    {
      if table[j].name == name {
        pid := table[j].pid;
        assert table[j] == Entry(pid, name);
        found := true;
      }
      j := j + 1;
    }
  }

  /** A pid found under a name in the table is that of the active child. */
  lemma EntryPid(s: State, live: Live, name: nat, pid: nat)
    requires TableOk(s, live) && name != 0
    requires pid == 0 <==> forall j :: 0 <= j < |s.table| ==> !(s.table[j].name == name && s.table[j].pid != 0)
    requires pid != 0 ==> Entry(pid, name) in s.table
    requires KidsOk(s, live)
    ensures pid == (if name in live then live[name] else 0) && (pid == 0 <==> name !in live)
  {
    assert HasEntry(s, live, name) && Lives(s, live, name);
    if pid != 0 {
      var j :| 0 <= j < |s.table| && s.table[j] == Entry(pid, name);
      assert Listed(s, live, j);
    }
  }

  lemma EntryThere(s: State, live: Live, name: nat)
    requires TableOk(s, live) && name in live
    ensures exists j :: 0 <= j < |s.table| && s.table[j].name == name
  {
    assert HasEntry(s, live, name);
    var j :| 0 <= j < |s.table| && s.table[j] == Entry(live[name], name);
  }

  lemma EntryFound(s: State, live: Live, name: nat, pid: nat)
    requires TableOk(s, live) && name in live && name != 0 && Entry(pid, name) in s.table
    ensures pid == live[name]
  {
    var j :| 0 <= j < |s.table| && s.table[j] == Entry(pid, name);
    assert Listed(s, live, j) && Blank(s, j);
  }

  /** Active names are below MAX_CHILDREN. */
  lemma {:induction false} NamesSmall(cmds: seq<Command>, n: nat)
    requires GoodTable(cmds) && n <= |cmds|
    ensures forall x :: x in Active(cmds, n) ==> 0 < x < MAX_CHILDREN
  {
    if n > 0 {
      NamesSmall(cmds, n - 1);
    }
  }

  class Program {
    const cmds: seq<Command>
    const max: nat
    var s: State
    ghost var t: Token
    ghost var live: Live

    /** Until the loop is left. */
    ghost predicate Valid()
      reads this
    {
      GoodTable(cmds) && (s.parent != Over && s.parent != Failed ==> Good(cmds, max, s, t, live))
    }

    ghost predicate Running()
      reads this
    {
      Valid() && s.parent != Over && s.parent != Failed
    }

    constructor (cmds: seq<Command>, max: nat)
      requires GoodTable(cmds) && cmds != []
      ensures Running() && s.parent == Begin && s.step == 0 && live == map[] && this.cmds == cmds && this.max == max
    {
      this.cmds, this.max := cmds, max;
      s := State(0, Begin, 0, [], seq(max, _ => 0), 0, 0, seq(max, _ => 0), map[]);
      t, live := AtParent, map[];
      new;
      Begun(cmds, max, s);
    }

    /** An S command: the limit, then a fork; `pid` is what fork returns. */
    method StartChild(pid: nat)
      requires Running() && s.parent == Begin && s.step < |cmds| && cmds[s.step].Start? && pid != 0 && pid !in s.kids
      modifies this
      ensures Valid() && (s.parent == Failed <==> old(s).running == max) && s.step == old(s).step && s.parent != Over
      ensures s.parent != Failed ==>
        live == old(live)[cmds[old(s).step].name := pid] && t == AtChild(pid) && s.step == old(s).step
      ensures Left(cmds, s, t) < Left(cmds, old(s), old(t))
    {
      Parts(cmds, max, s, t, live);
      if s.running + 1 > max {
        s := s.(running := s.running + 1, parent := Failed);
        return;
      }
      var name := cmds[s.step].name;
      ForkStep(cmds, max, s, live, name, pid);
      s := Forked(s, name, pid);
      t, live := AtChild(pid), live[name := pid];
    }

    /** The forked child looks for a free place in the pid table and posts the parent's semaphore. */
    method TakePlace(pid: nat)
      requires Running() && pid in s.kids && s.kids[pid].mode == Starting
      modifies this
      ensures Running() && t == ToParent && live == old(live) && s.parent == old(s).parent
      ensures
        && pid in s.kids && s.kids[pid].mode == Idle && s.kids[pid].slot < |s.pids| && s.pids[s.kids[pid].slot] == pid
      ensures forall j :: 0 <= j < s.kids[pid].slot ==> s.pids[j] != 0
      ensures Left(cmds, s, t) < Left(cmds, old(s), old(t))
    {
      TokenThere(cmds, max, s, t, live, pid);
      FreePlace(cmds, max, s, t, live, pid);
      var j := 0;
      while s.pids[j] != 0
        invariant j < |s.pids| && s == old(s) && t == old(t) && live == old(live) && forall k :: 0 <= k < j ==>
          s.pids[k] != 0
        invariant exists k: nat :: k < |s.pids| && s.pids[k] == 0
        decreases |s.pids| - j
      {
        j := j + 1;
      }
      SeatStep(cmds, max, s, t, live, pid, j);
      s := Seat(s, pid, j);
      t := ToParent;
    }

    /** sem_wait on the parent's semaphore. */
    method ParentWakes()
      requires Running() && Waits(s.parent) && s.parSem > 0
      modifies this
      ensures Running() && t == AtParent && live == old(live) && AtWork(s.parent)
      ensures Left(cmds, s, t) < Left(cmds, old(s), old(t))
    {
      TokenThere(cmds, max, s, t, live, 0);
      ResumeStep(cmds, max, s, t, live);
      s := Resumed(s);
      t := AtParent;
    }

    method ChildWakes(pid: nat)
      requires Running() && CanWake(s, pid)
      modifies this
      ensures Running() && t == AtChild(pid) && live == old(live)
      ensures Left(cmds, s, t) < Left(cmds, old(s), old(t))
    {
      TokenThere(cmds, max, s, t, live, pid);
      WakeStep(cmds, max, s, t, live, pid);
      s := Woke(s, pid);
      t := AtChild(pid);
    }

    /** The rest of the child's loop: print and post, or end. */
    method ChildAnswers(pid: nat)
      requires Running() && pid in s.kids && s.kids[pid].mode == Woken
      modifies this
      ensures
        && Running() && t == ToParent && live == old(live) && pid in s.kids
        && (s.kids[pid].mode == Gone <==> old(s).command == pid)
      ensures Left(cmds, s, t) < Left(cmds, old(s), old(t))
    {
      TokenThere(cmds, max, s, t, live, pid);
      AnswerStep(cmds, max, s, t, live, pid);
      s := Answered(s, pid);
      t := ToParent;
    }

    /** A step without a command. */
    method NoCommand()
      requires Running() && s.parent == Begin && s.step < |cmds| && cmds[s.step] == Nothing
      modifies this
      ensures Running() && s.parent == Choose && live == old(live)
      ensures Left(cmds, s, t) < Left(cmds, old(s), old(t))
    {
      Parts(cmds, max, s, t, live);
      ParentStep(cmds, max, s, live, s.(parent := Choose));
      s := s.(parent := Choose);
    }

    /** EXIT leaves the loop. */
    method Leave()
      requires Running() && s.parent == Begin && s.step < |cmds| && cmds[s.step] == Exit
      modifies this
      ensures Valid() && s == old(s).(parent := Over)
      ensures Left(cmds, s, t) < Left(cmds, old(s), old(t))
    {
      s := s.(parent := Over);
    }

    /** The end of a step. */
    method EndStep()
      requires Running() && s.parent == Next
      modifies this
      ensures
        && Valid() && s.step == old(s).step + 1 && (s.parent == Over <==> s.step == |cmds|)
        && (s.parent != Over ==> s.parent == Begin && live == old(live))
      ensures Left(cmds, s, t) < Left(cmds, old(s), old(t))
    {
      Parts(cmds, max, s, t, live);
      if s.step + 1 == |cmds| {
        s := s.(parent := Over, step := s.step + 1);
      } else {
        ParentStep(cmds, max, s, live, s.(parent := Begin, step := s.step + 1));
        s := s.(parent := Begin, step := s.step + 1);
      }
    }

    /** A T command: an active child is taken out of both tables and told to end; any other name is ignored. */
    method StopChild()
      requires Running() && s.parent == Begin && s.step < |cmds| && cmds[s.step].Stop?
      modifies this
      ensures Valid() && live == old(live) - {cmds[old(s).step].name}
      ensures cmds[old(s).step].name in old(live) ==>
                && Running() && s.command == old(live)[cmds[old(s).step].name] && s.parent == AwaitChoose && t.ToChild?
                && s.step == old(s).step
      ensures cmds[old(s).step].name !in old(live) ==>
        s == old(s).(step := old(s).step + 1, parent := if s.step == |cmds| then Over else Begin)
      ensures Left(cmds, s, t) < Left(cmds, old(s), old(t))
    {
      Parts(cmds, max, s, t, live);
      var name := cmds[s.step].name;
      var table, pid := BlankOut(s.table, name);
      EntryPid(s, live, name, pid);
      if pid == 0 {
        Ignore(name);
        return;
      }
      var j := PlaceOf(pid, name);
      TellStep(cmds, max, s, live, name, j);
      s := Told(s, name, pid, j);
      t, live := ToChild(j), live - {name};
    }

    /** The `continue` for a name that is not active. */
    method Ignore(name: nat)
      requires Running() && s.parent == Begin && s.step < |cmds| && cmds[s.step] == Stop(name) && name !in live
      modifies this`s
      ensures
        && Valid() && live == live - {name}
        && s == old(s).(step := old(s).step + 1, parent := if s.step == |cmds| then Over else Begin)
      ensures Left(cmds, s, t) < Left(cmds, old(s), old(t))
    {
      Parts(cmds, max, s, t, live);
      assert live - {name} == live;
      s := s.(step := s.step + 1, parent := if s.step + 1 == |cmds| then Over else Begin);
      if s.parent == Begin {
        IgnoreStep(cmds, max, old(s), live, name, s);
      }
    }

    /** The scan of the pid table for a child that is seated. */
    method PlaceOf(pid: nat, ghost name: nat) returns (j: nat)
      requires Running() && t == AtParent && name in live && live[name] == pid
      ensures j < |s.pids| && j < |s.sems| && s.pids[j] == pid && s.running > 0
    {
      Parts(cmds, max, s, t, live);
      assert Lives(s, live, name) && Seated(s, live, name) && KidOk(s, t, pid);
      ghost var k := s.kids[pid].slot;
      assert name in live.Keys && |live.Keys| > 0;
      j := 0;
      while s.pids[j] != pid
        invariant j <= k < |s.pids|
        decreases |s.pids| - j
      {
        j := j + 1;
      }
    }

    /** While children run, one of the active ones, drawn by r, is woken to print; else the step ends. */
    method ChooseChild(r: nat) returns (c: Option<nat>)
      requires Running() && s.parent == Choose
      modifies this
      ensures Running() && live == old(live) && (c == None <==> live == map[]) && (c == None ==> s.parent == Next)
      ensures c.Some? ==>
        c.value in live && t.ToChild? && t.j < |s.pids| && s.pids[t.j] == live[c.value] && s.parent == AwaitNext
      ensures Left(cmds, s, t) < Left(cmds, old(s), old(t))
    {
      Parts(cmds, max, s, t, live);
      if s.running == 0 {
        ParentStep(cmds, max, s, live, s.(parent := Next));
        s := s.(parent := Next);
        return None;
      }
      var active := Replay(cmds, s.step + 1);
      c := PickActive(active, r);
      NamesSmall(cmds, s.step + 1);
      assert c.Some? by {
        var n :| n in live;
        assert n in live.Keys;
        assert active[n];
      }
      assert c.value in live.Keys;
      EntryThere(s, live, c.value);
      var pid := PidOf(s.table, c.value);
      EntryFound(s, live, c.value, pid);
      var j := PlaceOf(pid, c.value);
      assert Lives(s, live, c.value);
      PickStep(cmds, max, s, live, j);
      s := Posted(s, j, AwaitNext);
      t := ToChild(j);
    }

    /** The whole program: whatever process numbers fork returns, whichever child is drawn and whoever
        moves when several can, the loop is left, at its end, at EXIT, or at one child too many. */
    method Run()
      requires Running()
      modifies this
      ensures s.parent == Over || s.parent == Failed
      ensures s.parent == Over ==> s.step == |cmds| || (s.step < |cmds| && cmds[s.step] == Exit)
      ensures s.parent == Failed ==> s.step < |cmds| && cmds[s.step].Start? && |Active(cmds, s.step)| == max
    {
      while s.parent != Over && s.parent != Failed
        invariant Valid()
        invariant s.parent == Over ==> s.step == |cmds| || (s.step < |cmds| && cmds[s.step] == Exit)
        invariant s.parent == Failed ==> s.step < |cmds| && cmds[s.step].Start? && |Active(cmds, s.step)| == max
        decreases Left(cmds, s, t)
      {
        Parts(cmds, max, s, t, live);
        if AtWork(s.parent) {
          ParentMoves();
        } else {
          OthersMove();
        }
      }
    }

    /** What the parent does when it has the token. */
    method ParentMoves()
      requires Running() && AtWork(s.parent)
      modifies this
      ensures Valid() && Left(cmds, s, t) < Left(cmds, old(s), old(t))
      ensures s.parent == Over ==> s.step == |cmds| || (s.step < |cmds| && cmds[s.step] == Exit)
      ensures s.parent == Failed ==> s.step < |cmds| && cmds[s.step].Start? && |Active(cmds, s.step)| == max
    {
      Parts(cmds, max, s, t, live);
      if s.parent == Choose {
        var r: nat := *;
        var _ := ChooseChild(r);
      } else if s.parent == Next {
        EndStep();
      } else {
        match cmds[s.step]
        case Nothing => NoCommand();
        case Exit => Leave();
        case Stop(_) => StopChild();
        case Start(_) =>
          Unused(s.kids.Keys, 1);
          var pid: nat :| pid >= 1 && pid !in s.kids.Keys;
          StartChild(pid);
      }
    }

    /** What happens while the parent waits. */
    method OthersMove()
      requires Running() && Waits(s.parent)
      modifies this
      ensures Running() && Left(cmds, s, t) < Left(cmds, old(s), old(t))
    {
      NoDeadlock(cmds, max, s, t, live);
      if s.parSem > 0 {
        ParentWakes();
        return;
      }
      var pid: nat :| pid in s.kids && (Touching(s, pid) || CanWake(s, pid));
      if CanWake(s, pid) {
        ChildWakes(pid);
      } else if s.kids[pid].mode == Starting {
        TakePlace(pid);
      } else {
        ChildAnswers(pid);
      }
    }
  }

  lemma Begun(cmds: seq<Command>, max: nat, s: State)
    requires cmds != [] && s == State(0, Begin, 0, [], s.pids, 0, 0, s.sems, map[]) && |s.pids| == |s.sems| == max
    requires forall j :: 0 <= j < max ==> s.pids[j] == 0 && s.sems[j] == 0
    ensures Good(cmds, max, s, AtParent, map[])
  {
    assert OneToken(s, AtParent) && TableOk(s, map[]) && KidsOk(s, map[]) && CountsOk(cmds, max, s, map[]);
    assert Holds(cmds, max, s, AtParent, map[], Tokens) && Holds(cmds, max, s, AtParent, map[], Counts);
  }
}
