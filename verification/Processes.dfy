/** The process table of the v2 kernel: states, the ready queue and the process tree. */
module Processes {
  datatype State = Ready | Running | Waiting | Blocked | Zombie

  /** parent is 0 for a process without one; r0 is the value a system call returns. */
  datatype Proc = Proc(state: State, exitCode: int, parent: nat, children: seq<nat>, statusPtr: nat, r0: int)

  type Procs = map<nat, Proc>

  /** What a blocked process waits for. */
  datatype Source = Keyboard | OnPipe(id: nat)

  ghost predicate Distinct(s: seq<nat>) {
    forall i, j :: 0 <= i < j < |s| ==> s[i] != s[j]
  }

  predicate Is(procs: Procs, pid: nat, st: State) {
    pid in procs && procs[pid].state == st
  }

  // ---- the invariant ----

  /** A process is in the queue, once, exactly when it is ready. */
  ghost predicate QueueOk(procs: Procs, queue: seq<nat>) {
    Distinct(queue) && forall pid :: pid in queue <==> Is(procs, pid, Ready)
  }

  /** Parent and children agree. */
  ghost predicate TreeOk(procs: Procs) { SiblingsOk(procs) && ChildrenOk(procs) && ParentsOk(procs) }

  ghost predicate SiblingsOk(procs: Procs) {
    forall p :: p in procs ==> Distinct(procs[p].children)
  }

  ghost predicate ChildrenOk(procs: Procs) {
    forall p, c :: p in procs && c in procs[p].children ==> c in procs && procs[c].parent == p
  }

  ghost predicate ParentsOk(procs: Procs) {
    forall c {:trigger IsChild(procs, procs[c].parent, c)} :: c in procs && procs[c].parent != 0 ==>
      IsChild(procs, procs[c].parent, c)
  }

  predicate IsChild(procs: Procs, p: nat, c: nat) { p in procs && c in procs[p].children }

  /** A process that waits has a child, and no zombie one; while a process exits, those in but may
      have one. */
  ghost predicate WaitOk(procs: Procs, but: set<nat>) {
    forall p :: Is(procs, p, Waiting) ==> procs[p].children != [] && (p !in but ==> NoZombie(procs, procs[p].children))
  }

  ghost predicate NoZombie(procs: Procs, pids: seq<nat>) {
    forall i :: 0 <= i < |pids| ==> !Is(procs, pids[i], Zombie)
  }

  /** Parents are older than their children, and no zombie but the first process keeps any. */
  ghost predicate RootOk(procs: Procs, next: nat) {
    && 0 < next && (forall p :: p in procs ==> procs[p].parent < p < next)
    && (forall p :: Is(procs, p, Zombie) && p != 1 ==> procs[p].children == [])
  }

  /** The blocked processes are the parked ones. */
  ghost predicate ParkOk(procs: Procs, parked: map<nat, Source>) {
    forall pid :: pid in parked <==> Is(procs, pid, Blocked)
  }

  ghost predicate OkBut(procs: Procs, queue: seq<nat>, parked: map<nat, Source>, next: nat, but: set<nat>) {
    QueueOk(procs, queue) && TreeOk(procs) && WaitOk(procs, but) && RootOk(procs, next) && ParkOk(procs, parked)
  }

  ghost predicate ProcsOk(procs: Procs, queue: seq<nat>, parked: map<nat, Source>, next: nat) {
    OkBut(procs, queue, parked, next, {})
  }

  // ---- a change of state ----

  function With(procs: Procs, pid: nat, st: State): Procs
    requires pid in procs
  {
    procs[pid := procs[pid].(state := st)]
  }

  lemma StateKeepsTree(procs: Procs, pid: nat, p: Proc)
    requires pid in procs && p.parent == procs[pid].parent && p.children == procs[pid].children
    ensures TreeOk(procs) ==> TreeOk(procs[pid := p])
  {
    var procs' := procs[pid := p];
    if TreeOk(procs) {
      forall q, c | q in procs' && c in procs'[q].children ensures c in procs' && procs'[c].parent == q {
        assert c in procs[q].children;
      }
      forall c | c in procs' && procs'[c].parent != 0 ensures IsChild(procs', procs'[c].parent, c) {
        assert IsChild(procs, procs[c].parent, c);
      }
    }
  }

  lemma DistinctPush(s: seq<nat>, x: nat)
    requires Distinct(s) && x !in s
    ensures Distinct(s + [x])
  {
  }

  lemma QueueJoins(procs: Procs, procs': Procs, queue: seq<nat>, pid: nat)
    requires QueueOk(procs, queue) && !Is(procs, pid, Ready) && Is(procs', pid, Ready)
    requires forall q :: q != pid ==> (Is(procs', q, Ready) <==> Is(procs, q, Ready))
    ensures QueueOk(procs', queue + [pid])
  {
    assert pid !in queue;
    DistinctPush(queue, pid);
    forall q ensures q in queue + [pid] <==> Is(procs', q, Ready) {
      assert q in queue + [pid] <==> q in queue || q == pid;
    }
  }

  /** Waiting processes are not concerned when another changes between states other than zombie. */
  lemma StateKeepsWait(procs: Procs, pid: nat, p: Proc, but: set<nat>)
    requires WaitOk(procs, but) && pid in procs && p.state != Zombie && p.children == procs[pid].children
    requires p.state == Waiting ==> p.children != [] && NoZombie(procs, p.children)
    ensures WaitOk(procs[pid := p], but)
  {
    var procs' := procs[pid := p];
    forall q | Is(procs', q, Waiting)
      ensures procs'[q].children != [] && (q !in but ==> NoZombie(procs', procs'[q].children))
    {
      if q != pid { assert Is(procs, q, Waiting); }
    }
  }

  /** A running or waiting process becomes ready: it joins the queue and nothing else changes. */
  lemma BecomesReady(procs: Procs, queue: seq<nat>, parked: map<nat, Source>, next: nat, but: set<nat>, pid: nat,
                     p: Proc)
    requires OkBut(procs, queue, parked, next, but) && pid in procs && procs[pid].state in {Running, Waiting}
    requires p == procs[pid].(state := Ready, r0 := p.r0, statusPtr := p.statusPtr)
    ensures OkBut(procs[pid := p], queue + [pid], parked, next, but)
  {
    StateKeepsTree(procs, pid, p);
    StateKeepsWait(procs, pid, p, but);
    QueueJoins(procs, procs[pid := p], queue, pid);
    RootKept(procs, next, pid, p);
  }

  /** A parked process becomes ready. */
  lemma Unparked(procs: Procs, queue: seq<nat>, parked: map<nat, Source>, next: nat, but: set<nat>, pid: nat, p: Proc)
    requires OkBut(procs, queue, parked, next, but) && pid in parked
    requires pid in procs && p == procs[pid].(state := Ready, r0 := p.r0)
    ensures OkBut(procs[pid := p], queue + [pid], parked - {pid}, next, but)
  {
    StateKeepsTree(procs, pid, p);
    StateKeepsWait(procs, pid, p, but);
    QueueJoins(procs, procs[pid := p], queue, pid);
    RootKept(procs, next, pid, p);
  }

  /** The running process blocks. */
  lemma Parked(procs: Procs, queue: seq<nat>, parked: map<nat, Source>, next: nat, pid: nat, on: Source)
    requires ProcsOk(procs, queue, parked, next) && Is(procs, pid, Running)
    ensures ProcsOk(With(procs, pid, Blocked), queue, parked[pid := on], next)
  {
    var procs' := With(procs, pid, Blocked);
    StateKeepsTree(procs, pid, procs'[pid]);
    StateKeepsWait(procs, pid, procs'[pid], {});
    forall q ensures q in queue <==> Is(procs', q, Ready) { }
  }

  /** The running process waits for a child. */
  lemma StartsWaiting(procs: Procs, queue: seq<nat>, parked: map<nat, Source>, next: nat, pid: nat, p: Proc)
    requires ProcsOk(procs, queue, parked, next) && Is(procs, pid, Running)
    requires procs[pid].children != [] && NoZombie(procs, procs[pid].children)
    requires p == procs[pid].(state := Waiting, statusPtr := p.statusPtr)
    ensures ProcsOk(procs[pid := p], queue, parked, next)
  {
    StateKeepsTree(procs, pid, p);
    StateKeepsWait(procs, pid, p, {});
    var procs' := procs[pid := p];
    forall q ensures q in queue <==> Is(procs', q, Ready) { }
  }

  /** The front of the queue is given the processor. */
  lemma Scheduled(procs: Procs, queue: seq<nat>, parked: map<nat, Source>, next: nat)
    requires ProcsOk(procs, queue, parked, next) && queue != []
    ensures queue[0] in procs && ProcsOk(With(procs, queue[0], Running), queue[1..], parked, next)
  {
    var pid := queue[0];
    assert pid in queue;
    var procs' := With(procs, pid, Running);
    StateKeepsTree(procs, pid, procs'[pid]);
    StateKeepsWait(procs, pid, procs'[pid], {});
    QueueShifts(procs, queue);
    RootKept(procs, next, pid, procs'[pid]);
    SamePark(procs, procs', parked);
  }

  lemma QueueShifts(procs: Procs, queue: seq<nat>)
    requires QueueOk(procs, queue) && queue != []
    ensures queue[0] in procs && QueueOk(With(procs, queue[0], Running), queue[1..])
  {
    var pid := queue[0];
    assert pid in queue;
    forall q ensures q in queue[1..] <==> Is(With(procs, pid, Running), q, Ready) {
      assert q in queue <==> q == pid || q in queue[1..];
    }
  }

  lemma RootKept(procs: Procs, next: nat, pid: nat, p: Proc)
    requires RootOk(procs, next) && pid in procs && p.parent == procs[pid].parent && p.state != Zombie
    ensures RootOk(procs[pid := p], next)
  {
  }

  // ---- new processes ----

  /** A process without a parent, as the loader starts it. */
  lemma Spawned(procs: Procs, queue: seq<nat>, parked: map<nat, Source>, next: nat, p: Proc)
    requires ProcsOk(procs, queue, parked, next) && p.state == Ready && p.parent == 0 && p.children == []
    ensures ProcsOk(procs[next := p], queue + [next], parked, next + 1)
  {
    var procs' := procs[next := p];
    assert next !in procs;
    QueueJoins(procs, procs', queue, next);
    SpawnTree(procs, next, p);
    NewWait(procs, procs', {next});
    NewRoot(procs, procs', next, {next});
    SamePark(procs, procs', parked);
  }

  lemma SamePark(procs: Procs, procs': Procs, parked: map<nat, Source>)
    requires ParkOk(procs, parked) && forall q :: Is(procs', q, Blocked) <==> Is(procs, q, Blocked)
    ensures ParkOk(procs', parked)
  {
  }

  lemma NewRoot(procs: Procs, procs': Procs, next: nat, ps: set<nat>)
    requires RootOk(procs, next) && forall q :: q in procs' && q !in ps ==> q in procs && procs'[q] == procs[q]
    requires forall q :: q in procs' && q in ps ==> procs'[q].parent < q <= next && procs'[q].state != Zombie
    ensures RootOk(procs', next + 1)
  {
    forall p | p in procs'
      ensures procs'[p].parent < p < next + 1 && (Is(procs', p, Zombie) && p != 1 ==> procs'[p].children == [])
    {
      if p !in ps { assert procs[p].parent < p < next; }
    }
  }

  lemma SpawnTree(procs: Procs, next: nat, p: Proc)
    requires TreeOk(procs) && next !in procs && p.parent == 0 && p.children == []
    ensures TreeOk(procs[next := p])
  {
    var procs' := procs[next := p];
    forall q, c | q in procs' && c in procs'[q].children ensures c in procs' && procs'[c].parent == q {
      assert q in procs && c in procs[q].children;
    }
    forall c | c in procs' && procs'[c].parent != 0 ensures IsChild(procs', procs'[c].parent, c) {
      assert IsChild(procs, procs[c].parent, c);
    }
  }

  /** Waiting processes outside ps, and all their children, are as they were. */
  lemma NewWait(procs: Procs, procs': Procs, ps: set<nat>)
    requires WaitOk(procs, {}) && forall q :: q in procs && q !in ps ==> q in procs' && procs'[q] == procs[q]
    requires forall q :: q in ps ==> !Is(procs', q, Waiting) && !Is(procs', q, Zombie)
    requires forall q :: q in procs' && q !in procs ==> q in ps
    ensures WaitOk(procs', {})
  {
    forall q | Is(procs', q, Waiting) ensures procs'[q].children != [] && NoZombie(procs', procs'[q].children) {
      assert Is(procs, q, Waiting);
    }
  }

  /** The table after a fork: the child is ready and its parent knows it. */
  function ForkTable(procs: Procs, pid: nat, next: nat, child: Proc): Procs
    requires pid in procs
  {
    procs[pid := procs[pid].(children := procs[pid].children + [next])][next := child]
  }

  lemma ForkTree(procs: Procs, pid: nat, next: nat, child: Proc)
    requires TreeOk(procs) && pid in procs && next !in procs && child.parent == pid && child.children == [] && pid != 0
      && pid != next
    requires forall p :: p in procs ==> next !in procs[p].children
    ensures TreeOk(ForkTable(procs, pid, next, child))
  {
    var procs' := ForkTable(procs, pid, next, child);
    DistinctPush(procs[pid].children, next);
    forall q, c | q in procs' && c in procs'[q].children ensures c in procs' && procs'[c].parent == q {
      if q != next && c != next { assert c in procs[q].children; }
    }
    forall c | c in procs' && procs'[c].parent != 0 ensures IsChild(procs', procs'[c].parent, c) {
      if c != next { assert IsChild(procs, procs[c].parent, c); }
    }
  }

  lemma UnknownChild(procs: Procs, c: nat)
    requires TreeOk(procs) && c !in procs
    ensures forall p :: p in procs ==> c !in procs[p].children
  {
  }

  lemma Forked(procs: Procs, queue: seq<nat>, parked: map<nat, Source>, next: nat, pid: nat, child: Proc)
    requires ProcsOk(procs, queue, parked, next) && Is(procs, pid, Running) && next !in procs
    requires child.state == Ready && child.parent == pid && child.children == []
    ensures ProcsOk(ForkTable(procs, pid, next, child), queue + [next], parked, next + 1)
    ensures Is(ForkTable(procs, pid, next, child), pid, Running)
  {
    ForkStates(procs, queue, parked, next, pid, child);
    ForkRoot(procs, next, pid, child);
    UnknownChild(procs, next);
    ForkTree(procs, pid, next, child);
  }

  lemma ForkStates(procs: Procs, queue: seq<nat>, parked: map<nat, Source>, next: nat, pid: nat, child: Proc)
    requires QueueOk(procs, queue) && WaitOk(procs, {}) && ParkOk(procs, parked) && Is(procs, pid, Running)
    requires next !in procs && child.state == Ready
    ensures var procs' := ForkTable(procs, pid, next, child);
      QueueOk(procs', queue + [next]) && WaitOk(procs', {}) && ParkOk(procs', parked) && Is(procs', pid, Running)
  {
    var procs' := ForkTable(procs, pid, next, child);
    QueueJoins(procs, procs', queue, next);
    NewWait(procs, procs', {pid, next});
    SamePark(procs, procs', parked);
  }

  lemma ForkRoot(procs: Procs, next: nat, pid: nat, child: Proc)
    requires RootOk(procs, next) && Is(procs, pid, Running) && child.state == Ready && child.parent == pid
    ensures next !in procs && pid != 0 && RootOk(ForkTable(procs, pid, next, child), next + 1)
  {
    NewRoot(procs, ForkTable(procs, pid, next, child), next, {pid, next});
  }

  // ---- exit ----

  /** What becomes of process p when pid exits, its children given to another process, or to none. */
  function ExitProc(procs: Procs, pid: nat, code: int, heir: nat, p: nat): Proc
    requires pid in procs && p in procs
  {
    if p == pid then procs[p].(state := Zombie, exitCode := code, children := [])
    else if p in procs[pid].children then procs[p].(parent := heir)
    else if p == heir then procs[p].(children := procs[p].children + procs[pid].children)
    else procs[p]
  }

  ghost predicate ExitOf(procs: Procs, procs': Procs, pid: nat, code: int, heir: nat) {
    && pid in procs && procs'.Keys == procs.Keys
    && forall p {:trigger procs'[p]} :: p in procs ==> procs'[p] == ExitProc(procs, pid, code, heir, p)
  }

  predicate HeirOk(procs: Procs, pid: nat, heir: nat) {
    if 1 in procs && pid != 1 then heir == 1 else heir == 0
  }

  lemma DistinctJoin(a: seq<nat>, b: seq<nat>)
    requires Distinct(a) && Distinct(b) && forall x :: x in a ==> x !in b
    ensures Distinct(a + b)
  {
    forall i, j | 0 <= i < j < |a + b| ensures (a + b)[i] != (a + b)[j] {
      if i < |a| <= j { assert a[i] in a; assert (a + b)[j] in b; }
    }
  }

  /** The heir is not among the children. */
  lemma HeirApart(procs: Procs, next: nat, pid: nat, heir: nat)
    requires TreeOk(procs) && RootOk(procs, next) && pid in procs && HeirOk(procs, pid, heir)
    ensures heir !in procs[pid].children && pid !in procs[pid].children
    ensures heir != 0 ==> pid != heir && forall x :: x in procs[heir].children ==> x !in procs[pid].children
  {
    assert forall c :: c in procs[pid].children ==> c in procs && procs[c].parent == pid < c;
    if heir != 0 {
      forall x | x in procs[heir].children ensures x !in procs[pid].children {
        assert procs[x].parent == heir;
      }
    }
  }

  lemma ExitTree(procs: Procs, procs': Procs, next: nat, pid: nat, code: int, heir: nat)
    requires TreeOk(procs) && RootOk(procs, next) && ExitOf(procs, procs', pid, code, heir) && HeirOk(procs, pid, heir)
    ensures TreeOk(procs')
  {
    ExitSiblings(procs, procs', next, pid, code, heir);
    ExitChildren(procs, procs', next, pid, code, heir);
    ExitParents(procs, procs', next, pid, code, heir);
  }

  lemma ExitSiblings(procs: Procs, procs': Procs, next: nat, pid: nat, code: int, heir: nat)
    requires TreeOk(procs) && RootOk(procs, next) && ExitOf(procs, procs', pid, code, heir) && HeirOk(procs, pid, heir)
    ensures SiblingsOk(procs')
  {
    forall p | p in procs' ensures Distinct(procs'[p].children) {
      ExitDistinct(procs, next, pid, code, heir, p);
    }
  }

  lemma ExitChildren(procs: Procs, procs': Procs, next: nat, pid: nat, code: int, heir: nat)
    requires TreeOk(procs) && RootOk(procs, next) && ExitOf(procs, procs', pid, code, heir) && HeirOk(procs, pid, heir)
    ensures ChildrenOk(procs')
  {
    forall p, c | p in procs' && c in procs'[p].children ensures c in procs' && procs'[c].parent == p {
      ExitChild(procs, next, pid, code, heir, p, c);
    }
  }

  lemma ExitParents(procs: Procs, procs': Procs, next: nat, pid: nat, code: int, heir: nat)
    requires TreeOk(procs) && RootOk(procs, next) && ExitOf(procs, procs', pid, code, heir) && HeirOk(procs, pid, heir)
    ensures ParentsOk(procs')
  {
    forall c | c in procs' && procs'[c].parent != 0 ensures IsChild(procs', procs'[c].parent, c) {
      ExitParent(procs, next, pid, code, heir, c);
    }
  }

  lemma ExitDistinct(procs: Procs, next: nat, pid: nat, code: int, heir: nat, p: nat)
    requires TreeOk(procs) && RootOk(procs, next) && pid in procs && HeirOk(procs, pid, heir) && p in procs
    ensures Distinct(ExitProc(procs, pid, code, heir, p).children)
  {
    HeirApart(procs, next, pid, heir);
    if p == heir && p != pid { DistinctJoin(procs[heir].children, procs[pid].children); }
  }

  lemma ExitParent(procs: Procs, next: nat, pid: nat, code: int, heir: nat, c: nat)
    requires TreeOk(procs) && RootOk(procs, next) && pid in procs && HeirOk(procs, pid, heir) && c in procs
    requires ExitProc(procs, pid, code, heir, c).parent != 0
    ensures var p := ExitProc(procs, pid, code, heir, c).parent;
      p in procs && c in ExitProc(procs, pid, code, heir, p).children
  {
    HeirApart(procs, next, pid, heir);
    if c !in procs[pid].children { assert IsChild(procs, procs[c].parent, c); }
  }

  lemma ExitChild(procs: Procs, next: nat, pid: nat, code: int, heir: nat, p: nat, c: nat)
    requires TreeOk(procs) && RootOk(procs, next) && pid in procs && HeirOk(procs, pid, heir)
    requires p in procs && c in ExitProc(procs, pid, code, heir, p).children
    ensures c in procs && ExitProc(procs, pid, code, heir, c).parent == p
  {
    HeirApart(procs, next, pid, heir);
    if p == heir && c in procs[pid].children {
      assert procs[c].parent == pid;
    } else {
      assert c in procs[p].children;
    }
  }

  lemma ExitStates(procs: Procs, procs': Procs, queue: seq<nat>, parked: map<nat, Source>, pid: nat, code: int,
                   heir: nat)
    requires QueueOk(procs, queue) && ParkOk(procs, parked) && Is(procs, pid, Running)
      && ExitOf(procs, procs', pid, code, heir)
    ensures QueueOk(procs', queue) && ParkOk(procs', parked)
  {
    forall q ensures q in queue <==> Is(procs', q, Ready) { }
    forall q ensures q in parked <==> Is(procs', q, Blocked) { }
  }

  lemma ExitRoot(procs: Procs, procs': Procs, next: nat, pid: nat, code: int, heir: nat)
    requires TreeOk(procs) && RootOk(procs, next) && ExitOf(procs, procs', pid, code, heir) && HeirOk(procs, pid, heir)
    ensures RootOk(procs', next)
  {
    HeirApart(procs, next, pid, heir);
    forall q | q in procs' ensures procs'[q].parent < q < next {
      if q in procs[pid].children { assert procs[q].parent == pid; }
    }
  }

  /** Once pid is a zombie, only its parent and its heir may be waiting beside a zombie child. */
  lemma Exited(procs: Procs, procs': Procs, queue: seq<nat>, parked: map<nat, Source>, next: nat, pid: nat, code: int,
               heir: nat)
    requires ProcsOk(procs, queue, parked, next) && Is(procs, pid, Running) && HeirOk(procs, pid, heir)
    requires ExitOf(procs, procs', pid, code, heir)
    ensures OkBut(procs', queue, parked, next, {procs[pid].parent, heir})
  {
    ExitTree(procs, procs', next, pid, code, heir);
    ExitStates(procs, procs', queue, parked, pid, code, heir);
    ExitRoot(procs, procs', next, pid, code, heir);
    ExitWait(procs, procs', next, pid, code, heir);
  }

  lemma ExitWait(procs: Procs, procs': Procs, next: nat, pid: nat, code: int, heir: nat)
    requires TreeOk(procs) && RootOk(procs, next) && WaitOk(procs, {}) && Is(procs, pid, Running)
      && HeirOk(procs, pid, heir)
    requires ExitOf(procs, procs', pid, code, heir)
    ensures WaitOk(procs', {procs[pid].parent, heir})
  {
    forall q | Is(procs', q, Waiting)
      ensures procs'[q].children != [] && (q !in {procs[pid].parent, heir} ==> NoZombie(procs', procs'[q].children))
    {
      assert Is(procs, q, Waiting);
      if q !in {procs[pid].parent, heir} { ExitWaiter(procs, procs', next, pid, code, heir, q); }
    }
  }

  lemma ExitWaiter(procs: Procs, procs': Procs, next: nat, pid: nat, code: int, heir: nat, q: nat)
    requires TreeOk(procs) && RootOk(procs, next) && ExitOf(procs, procs', pid, code, heir) && HeirOk(procs, pid, heir)
      && q in procs
    requires NoZombie(procs, procs[q].children) && q != procs[pid].parent && q != heir && q != pid
    ensures NoZombie(procs', procs'[q].children)
  {
    var kids := procs'[q].children;
    assert kids == procs[q].children;
    forall i | 0 <= i < |kids| ensures !Is(procs', kids[i], Zombie) {
      assert kids[i] in procs[q].children;
    }
  }

  // ---- reaping ----

  function Without(s: seq<nat>, x: nat): (r: seq<nat>)
    ensures forall y :: y in r <==> y in s && y != x
  {
    if s == [] then [] else (if s[0] == x then [] else [s[0]]) + Without(s[1..], x)
  }

  lemma {:induction false} WithoutDistinct(s: seq<nat>, x: nat)
    requires Distinct(s)
    ensures Distinct(Without(s, x))
  {
    if s != [] {
      WithoutDistinct(s[1..], x);
      assert s[0] !in s[1..];
      if s[0] != x { DistinctJoin([s[0]], Without(s[1..], x)); }
    }
  }

  /** The table after pid takes the zombie child c away and is ready again. */
  function ReapTable(procs: Procs, pid: nat, c: nat): Procs
    requires pid in procs
  {
    (procs - {c})[pid := procs[pid].(children := Without(procs[pid].children, c), statusPtr := 0, r0 := c,
        state := Ready)]
  }

  lemma ReapTree(procs: Procs, next: nat, pid: nat, c: nat)
    requires TreeOk(procs) && RootOk(procs, next) && pid in procs && c in procs[pid].children && Is(procs, c, Zombie)
    ensures TreeOk(ReapTable(procs, pid, c))
  {
    assert procs[c].parent == pid;
    assert c != 1 && c != pid && procs[c].children == [];
    var procs' := ReapTable(procs, pid, c);
    WithoutDistinct(procs[pid].children, c);
    ReapChildren(procs, pid, c);
    forall k | k in procs' && procs'[k].parent != 0 ensures IsChild(procs', procs'[k].parent, k) {
      assert IsChild(procs, procs[k].parent, k);
    }
  }

  lemma ReapChildren(procs: Procs, pid: nat, c: nat)
    requires ChildrenOk(procs) && pid in procs && c in procs && procs[c].parent == pid && c != pid
    ensures ChildrenOk(ReapTable(procs, pid, c))
  {
    var procs' := ReapTable(procs, pid, c);
    forall p, k | p in procs' && k in procs'[p].children ensures k in procs' && procs'[k].parent == p {
      assert k in procs[p].children;
    }
  }

  lemma Reaped(procs: Procs, queue: seq<nat>, parked: map<nat, Source>, next: nat, but: set<nat>, pid: nat, c: nat)
    requires OkBut(procs, queue, parked, next, but) && pid in procs && procs[pid].state in {Running, Waiting}
    requires c in procs[pid].children && Is(procs, c, Zombie)
    ensures OkBut(ReapTable(procs, pid, c), queue + [pid], parked, next, but - {pid})
  {
    var procs' := ReapTable(procs, pid, c);
    ReapTree(procs, next, pid, c);
    assert procs[c].parent == pid;
    QueueJoins(procs, procs', queue, pid);
    SamePark(procs, procs', parked);
    ReapWait(procs, but, pid, c);
    ReapRoot(procs, next, pid, c);
  }

  lemma ReapRoot(procs: Procs, next: nat, pid: nat, c: nat)
    requires RootOk(procs, next) && pid in procs
    ensures RootOk(ReapTable(procs, pid, c), next)
  {
  }

  lemma ReapWait(procs: Procs, but: set<nat>, pid: nat, c: nat)
    requires WaitOk(procs, but) && pid in procs
    ensures WaitOk(ReapTable(procs, pid, c), but - {pid})
  {
    var procs' := ReapTable(procs, pid, c);
    forall q | Is(procs', q, Waiting)
      ensures procs'[q].children != [] && (q !in but - {pid} ==> NoZombie(procs', procs'[q].children))
    {
      assert Is(procs, q, Waiting);
    }
  }
}
