/** The v2 kernel: system calls and the scheduler as steps over the process table, the descriptor
    tables and the pipes. User computation between traps is arbitrary; whether a user address
    translates is decided by a parameter. */
module Kernel {
  import opened Bytes
  import opened Folding
  import opened Processes
  import opened OpenFiles
  import opened KernelSteps

  // ---- readers parked on pipes and on the keyboard ----

  function Pids(ws: seq<Waiter>): (r: seq<nat>)
    ensures |r| == |ws| && forall i :: 0 <= i < |ws| ==> r[i] == ws[i].pid
  {
    seq(|ws|, i requires 0 <= i < |ws| => ws[i].pid)
  }

  /** The list holds each process parked on this source once, and no other. */
  ghost predicate ListOk(ws: seq<Waiter>, parked: map<nat, Source>, on: Source) {
    && Distinct(Pids(ws))
    && forall pid :: pid in Pids(ws) <==> pid in parked && parked[pid] == on
  }

  /** A reader is parked only on an empty pipe that can still be written. */
  ghost predicate ReadersOk(pipes: map<nat, Pipe>, but: set<nat>) {
    forall p :: p in pipes && p !in but && pipes[p].waiters != [] ==> pipes[p].buffer == [] && pipes[p].writers != 0
  }

  ghost predicate ParkingOk(pipes: map<nat, Pipe>, input: seq<Waiter>, parked: map<nat, Source>) {
    forall k :: Shown(k, pipes, input) ==>
      && (forall p :: p in pipes ==> ListOk(pipes[p].waiters, parked, OnPipe(p)))
      && ListOk(input, parked, Keyboard)
      && (forall pid :: pid in parked && parked[pid].OnPipe? ==> parked[pid].id in pipes)
  }

  /** All bytes that reads took, in order. */
  function Taken(rs: seq<Read>): seq<u8> {
    if rs == [] then [] else Taken(rs[..|rs| - 1]) + rs[|rs| - 1].bytes
  }

  /** The bytes that readers got: those of reads that did not fault. */
  function Delivered(rs: seq<Read>): seq<u8> {
    if rs == [] then [] else Delivered(rs[..|rs| - 1]) + if rs[|rs| - 1].fault then [] else rs[|rs| - 1].bytes
  }

  lemma TakenMore(rs: seq<Read>, r: Read)
    ensures Taken(rs + [r]) == Taken(rs) + r.bytes
    ensures Delivered(rs + [r]) == Delivered(rs) + if r.fault then [] else r.bytes
  {
    assert (rs + [r])[..|rs|] == rs;
  }

  /** No faulting read took any bytes. */
  ghost predicate Lossless(rs: seq<Read>) { forall i :: 0 <= i < |rs| && rs[i].fault ==> rs[i].bytes == [] }

  lemma {:induction false} DeliveredAll(rs: seq<Read>)
    ensures |Delivered(rs)| <= |Taken(rs)|
    ensures Lossless(rs) ==> Delivered(rs) == Taken(rs)
    ensures !Lossless(rs) ==> |Delivered(rs)| < |Taken(rs)|
  {
    if rs != [] {
      var m := |rs| - 1;
      DeliveredAll(rs[..m]);
      assert forall i :: 0 <= i < m ==> rs[..m][i] == rs[i];
      assert Lossless(rs) <==> Lossless(rs[..m]) && (rs[m].fault ==> rs[m].bytes == []);
    }
  }

  /** What readers got, followed by what the pipe holds, is all that was written exactly when no faulting
      read took any bytes. */
  lemma DeliveredIff(rs: seq<Read>, buffer: seq<u8>, written: seq<u8>)
    requires written == Taken(rs) + buffer
    ensures Delivered(rs) + buffer == written <==> Lossless(rs)
  {
    DeliveredAll(rs);
  }

  /** A read of a nonempty pipe that faults loses bytes. */
  lemma FaultLoses(rs: seq<Read>, buffer: seq<u8>, len: nat)
    requires buffer != [] && len > 0
    ensures var k := Amount(buffer, len); Delivered(rs + [Read(buffer[..k], true)]) + buffer[k..] != Taken(rs) + buffer
  {
    TakenMore(rs, Read(buffer[..Amount(buffer, len)], true));
    DeliveredAll(rs);
  }

  /** All that was written to a pipe is what was taken, in order, and then what it holds. */
  ghost predicate HistoryOk(pipes: map<nat, Pipe>, written: map<nat, seq<u8>>, taken: map<nat, seq<Read>>) {
    forall k :: Shown(k, pipes, taken) ==>
      && written.Keys == pipes.Keys && taken.Keys == pipes.Keys
      && forall p :: p in pipes ==> written[p] == Taken(taken[p]) + pipes[p].buffer
  }

  lemma HistoryIs(pipes: map<nat, Pipe>, written: map<nat, seq<u8>>, taken: map<nat, seq<Read>>)
    requires HistoryOk(pipes, written, taken)
    ensures written.Keys == pipes.Keys && taken.Keys == pipes.Keys
    ensures forall p :: p in pipes ==> written[p] == Taken(taken[p]) + pipes[p].buffer
  {
    assert Shown(0, pipes, taken);
  }

  lemma HistorySame(pipes: map<nat, Pipe>, pipes': map<nat, Pipe>, written: map<nat, seq<u8>>,
                    taken: map<nat, seq<Read>>)
    requires HistoryOk(pipes, written, taken) && pipes'.Keys == pipes.Keys
      && forall p :: p in pipes ==> pipes'[p].buffer == pipes[p].buffer
    ensures HistoryOk(pipes', written, taken)
  {
    HistoryIs(pipes, written, taken);
  }

  /** Histories only grow. */
  ghost predicate Longer<T>(before: map<nat, seq<T>>, after: map<nat, seq<T>>) {
    forall p :: p in before ==> p in after && before[p] <= after[p]
  }

  /** Zombies hold no descriptors. */
  ghost predicate TablesOk(procs: Procs, fds: Fds) {
    fds.Keys == procs.Keys && forall pid :: Is(procs, pid, Zombie) ==> Closed(fds[pid])
  }

  predicate Closed(t: seq<nat>) { forall fd :: 0 <= fd < |t| ==> t[fd] == 0 }

  lemma TablesKept(procs: Procs, pid: nat, p: Proc, fds: Fds)
    requires TablesOk(procs, fds) && pid in procs && p.state != Zombie
    ensures TablesOk(procs[pid := p], fds)
  {
    forall q | Is(procs[pid := p], q, Zombie) ensures Closed(fds[q]) { assert Is(procs, q, Zombie); }
  }

  lemma ListShift(ws: seq<Waiter>, parked: map<nat, Source>, on: Source)
    requires ListOk(ws, parked, on) && ws != []
    ensures ws[0].pid in parked && parked[ws[0].pid] == on && ListOk(ws[1..], parked - {ws[0].pid}, on)
  {
    var pid := ws[0].pid;
    assert Pids(ws)[0] == pid;
    assert Pids(ws[1..]) == Pids(ws)[1..];
    forall q ensures q in Pids(ws[1..]) <==> q in parked - {pid} && (parked - {pid})[q] == on {
      assert q in Pids(ws) <==> q == pid || q in Pids(ws)[1..];
    }
  }

  lemma ListOther(ws: seq<Waiter>, parked: map<nat, Source>, on: Source, pid: nat)
    requires ListOk(ws, parked, on) && pid in parked && parked[pid] != on
    ensures ListOk(ws, parked - {pid}, on)
  {
  }

  lemma ListPush(ws: seq<Waiter>, parked: map<nat, Source>, on: Source, w: Waiter)
    requires ListOk(ws, parked, on) && w.pid !in parked
    ensures ListOk(ws + [w], parked[w.pid := on], on)
  {
    assert Pids(ws + [w]) == Pids(ws) + [w.pid];
    DistinctPush(Pids(ws), w.pid);
    forall q ensures q in Pids(ws + [w]) <==> q in parked[w.pid := on] && parked[w.pid := on][q] == on {
      assert q in Pids(ws + [w]) <==> q in Pids(ws) || q == w.pid;
    }
  }

  lemma ListElse(ws: seq<Waiter>, parked: map<nat, Source>, on: Source, pid: nat, other: Source)
    requires ListOk(ws, parked, on) && pid !in parked && other != on
    ensures ListOk(ws, parked[pid := other], on)
  {
    forall q ensures q in Pids(ws) <==> q in parked[pid := other] && parked[pid := other][q] == on { }
  }

  // ---- serving a parked reader ----

  lemma ParkingServed(pipes: map<nat, Pipe>, input: seq<Waiter>, parked: map<nat, Source>, p: nat)
    requires ParkingOk(pipes, input, parked) && p in pipes && pipes[p].waiters != []
    ensures var pid := pipes[p].waiters[0].pid;
      pid in parked && parked[pid] == OnPipe(p) && ParkingOk(pipes[p := Served(pipes[p])], input, parked - {pid})
  {
    assert Shown(0, pipes, input);
    var pid := pipes[p].waiters[0].pid;
    ListShift(pipes[p].waiters, parked, OnPipe(p));
    ListOther(input, parked, Keyboard, pid);
    forall q | q in pipes && q != p ensures ListOk(pipes[q].waiters, parked - {pid}, OnPipe(q)) {
      ListOther(pipes[q].waiters, parked, OnPipe(q), pid);
    }
  }

  lemma HistoryTaken(pipes: map<nat, Pipe>, written: map<nat, seq<u8>>, taken: map<nat, seq<Read>>, p: nat, n: nat,
                     fault: bool, pipe: Pipe)
    requires HistoryOk(pipes, written, taken) && p in pipes && n <= |pipes[p].buffer|
      && pipe.buffer == pipes[p].buffer[n..]
    ensures p in taken
      && HistoryOk(pipes[p := pipe], written, taken[p := taken[p] + [Read(pipes[p].buffer[..n], fault)]])
  {
    HistoryIs(pipes, written, taken);
    TakenMore(taken[p], Read(pipes[p].buffer[..n], fault));
    assert Taken(taken[p]) + pipes[p].buffer == Taken(taken[p]) + pipes[p].buffer[..n] + pipes[p].buffer[n..];
  }

  lemma HistoryWritten(pipes: map<nat, Pipe>, written: map<nat, seq<u8>>, taken: map<nat, seq<Read>>, p: nat,
                       data: seq<u8>, pipe: Pipe)
    requires HistoryOk(pipes, written, taken) && p in pipes && pipe.buffer == pipes[p].buffer + data
    ensures p in written && HistoryOk(pipes[p := pipe], written[p := written[p] + data], taken)
  {
    HistoryIs(pipes, written, taken);
    assert Taken(taken[p]) + pipes[p].buffer + data == Taken(taken[p]) + (pipes[p].buffer + data);
  }

  lemma ServeStep(fds: Fds, files: map<nat, File>, holders: Holders, pipes: map<nat, Pipe>, ends: map<nat, Ends>,
                  next: nat, input: seq<Waiter>, parked: map<nat, Source>, written: map<nat, seq<u8>>,
                  taken: map<nat, seq<Read>>, p: nat, n: nat, fault: bool)
    requires FilesOk(fds, files, holders, pipes, ends, next) && p in pipes && pipes[p].waiters != []
    requires ReadersOk(pipes, {p}) && ParkingOk(pipes, input, parked) && HistoryOk(pipes, written, taken)
    requires n == Amount(pipes[p].buffer, pipes[p].waiters[0].len)
    ensures var pid, pipes' := pipes[p].waiters[0].pid, pipes[p := Served(pipes[p])];
      && pid in parked && FilesOk(fds, files, holders, pipes', ends, next) && ReadersOk(pipes', {p})
      && ParkingOk(pipes', input, parked - {pid}) && p in taken
      && HistoryOk(pipes', written, taken[p := taken[p] + [Read(pipes[p].buffer[..n], fault)]])
  {
    ParkingServed(pipes, input, parked, p);
    HistoryTaken(pipes, written, taken, p, n, fault, Served(pipes[p]));
    PipeSameCounts(files, pipes, pipes[p := Served(pipes[p])], ends);
  }

  lemma ParkingSame(pipes: map<nat, Pipe>, pipes': map<nat, Pipe>, input: seq<Waiter>, parked: map<nat, Source>)
    requires ParkingOk(pipes, input, parked) && pipes'.Keys == pipes.Keys
    requires forall p :: p in pipes ==> pipes'[p].waiters == pipes[p].waiters
    ensures ParkingOk(pipes', input, parked)
  {
    assert Shown(0, pipes, input);
  }

  lemma ParkingPushed(pipes: map<nat, Pipe>, input: seq<Waiter>, parked: map<nat, Source>, p: nat, w: Waiter)
    requires ParkingOk(pipes, input, parked) && p in pipes && w.pid !in parked
    ensures ParkingOk(pipes[p := pipes[p].(waiters := pipes[p].waiters + [w])], input, parked[w.pid := OnPipe(p)])
  {
    assert Shown(0, pipes, input);
    ListPush(pipes[p].waiters, parked, OnPipe(p), w);
    ListElse(input, parked, Keyboard, w.pid, OnPipe(p));
    forall q | q in pipes && q != p ensures ListOk(pipes[q].waiters, parked[w.pid := OnPipe(p)], OnPipe(q)) {
      ListElse(pipes[q].waiters, parked, OnPipe(q), w.pid, OnPipe(p));
    }
  }

  lemma ParkingKeyboard(pipes: map<nat, Pipe>, input: seq<Waiter>, parked: map<nat, Source>, w: Waiter)
    requires ParkingOk(pipes, input, parked) && w.pid !in parked
    ensures ParkingOk(pipes, input + [w], parked[w.pid := Keyboard])
  {
    assert Shown(0, pipes, input);
    ListPush(input, parked, Keyboard, w);
    forall q | q in pipes ensures ListOk(pipes[q].waiters, parked[w.pid := Keyboard], OnPipe(q)) {
      ListElse(pipes[q].waiters, parked, OnPipe(q), w.pid, Keyboard);
    }
  }

  lemma ParkingTyped(pipes: map<nat, Pipe>, input: seq<Waiter>, parked: map<nat, Source>)
    requires ParkingOk(pipes, input, parked) && input != []
    ensures var pid := input[0].pid;
      pid in parked && parked[pid] == Keyboard && ParkingOk(pipes, input[1..], parked - {pid})
  {
    assert Shown(0, pipes, input);
    var pid := input[0].pid;
    ListShift(input, parked, Keyboard);
    forall q | q in pipes ensures ListOk(pipes[q].waiters, parked - {pid}, OnPipe(q)) {
      ListOther(pipes[q].waiters, parked, OnPipe(q), pid);
    }
  }

  // ---- the invariant, in three parts ----

  // Each part stays folded behind Shown, so that a step of the kernel sees only the parts it needs;
  // the lemmas that follow open them.


  ghost predicate GoodProcs(procs: Procs, queue: seq<nat>, parked: map<nat, Source>, next: nat, fds: Fds,
                            but: set<nat>) {
    forall k :: Shown(k, procs, queue) ==> OkBut(procs, queue, parked, next, but) && TablesOk(procs, fds)
  }

  ghost predicate GoodFiles(fds: Fds, files: map<nat, File>, holders: Holders, pipes: map<nat, Pipe>,
                            ends: map<nat, Ends>, next: nat) {
    forall k :: Shown(k, fds, pipes) ==> FilesOk(fds, files, holders, pipes, ends, next)
  }

  /** The pipes, with those in but perhaps having readers still to be served. */
  ghost predicate GoodPipes(pipes: map<nat, Pipe>, input: seq<Waiter>, parked: map<nat, Source>,
                            written: map<nat, seq<u8>>, taken: map<nat, seq<Read>>, but: set<nat>) {
    forall k :: Shown(k, pipes, parked) ==>
      ReadersOk(pipes, but) && ParkingOk(pipes, input, parked) && HistoryOk(pipes, written, taken)
  }

  lemma ScheduleOk(procs: Procs, queue: seq<nat>, parked: map<nat, Source>, next: nat, fds: Fds)
    requires GoodProcs(procs, queue, parked, next, fds, {}) && queue != []
    ensures queue[0] in procs && GoodProcs(With(procs, queue[0], Running), queue[1..], parked, next, fds, {})
  {
    assert Shown(0, procs, queue);
    Scheduled(procs, queue, parked, next);
    TablesKept(procs, queue[0], procs[queue[0]].(state := Running), fds);
  }

  lemma ReadyOk(procs: Procs, queue: seq<nat>, parked: map<nat, Source>, next: nat, fds: Fds, but: set<nat>, pid: nat,
                r0: int)
    requires GoodProcs(procs, queue, parked, next, fds, but) && pid in procs && procs[pid].state in {Running, Waiting}
    ensures GoodProcs(procs[pid := procs[pid].(state := Ready, r0 := r0)], queue + [pid], parked, next, fds, but)
  {
    assert Shown(0, procs, queue);
    BecomesReady(procs, queue, parked, next, but, pid, procs[pid].(state := Ready, r0 := r0));
    TablesKept(procs, pid, procs[pid].(state := Ready, r0 := r0), fds);
  }

  lemma WakeOk(procs: Procs, queue: seq<nat>, parked: map<nat, Source>, next: nat, fds: Fds, but: set<nat>, pid: nat,
               r0: int)
    requires GoodProcs(procs, queue, parked, next, fds, but) && pid in parked
    ensures pid in procs
      && GoodProcs(procs[pid := procs[pid].(state := Ready, r0 := r0)], queue + [pid], parked - {pid}, next, fds, but)
  {
    assert Shown(0, procs, queue);
    assert Is(procs, pid, Blocked);
    Unparked(procs, queue, parked, next, but, pid, procs[pid].(state := Ready, r0 := r0));
    TablesKept(procs, pid, procs[pid].(state := Ready, r0 := r0), fds);
  }

  lemma ServeOk(fds: Fds, files: map<nat, File>, holders: Holders, pipes: map<nat, Pipe>, ends: map<nat, Ends>,
                next: nat, input: seq<Waiter>, parked: map<nat, Source>, written: map<nat, seq<u8>>,
                taken: map<nat, seq<Read>>, p: nat, n: nat, fault: bool)
    requires GoodFiles(fds, files, holders, pipes, ends, next) && p in pipes && pipes[p].waiters != []
    requires GoodPipes(pipes, input, parked, written, taken, {p})
      && n == Amount(pipes[p].buffer, pipes[p].waiters[0].len)
    ensures var pid, pipes' := pipes[p].waiters[0].pid, pipes[p := Served(pipes[p])];
      && pid in parked && p in taken && GoodFiles(fds, files, holders, pipes', ends, next)
      && GoodPipes(pipes', input, parked - {pid}, written, taken[p := taken[p] + [Read(pipes[p].buffer[..n], fault)]],
          {p})
  {
    assert Shown(0, fds, pipes);
    assert Shown(0, pipes, parked);
    ServeStep(fds, files, holders, pipes, ends, next, input, parked, written, taken, p, n, fault);
  }

  lemma KnownPipe(pipes: map<nat, Pipe>, input: seq<Waiter>, parked: map<nat, Source>, written: map<nat, seq<u8>>,
                  taken: map<nat, seq<Read>>, p: nat)
    requires GoodPipes(pipes, input, parked, written, taken, {p}) && p in pipes
    ensures p in taken
  {
    assert Shown(0, pipes, parked);
    HistoryIs(pipes, written, taken);
  }

  lemma AllServed(pipes: map<nat, Pipe>, input: seq<Waiter>, parked: map<nat, Source>, written: map<nat, seq<u8>>,
                  taken: map<nat, seq<Read>>, p: nat)
    requires GoodPipes(pipes, input, parked, written, taken, {p})
    requires p in pipes ==> pipes[p].waiters == [] || (pipes[p].buffer == [] && pipes[p].writers != 0)
    ensures GoodPipes(pipes, input, parked, written, taken, {})
  {
    assert Shown(0, pipes, parked);
  }

  /** Only parked processes have changed. */
  ghost predicate OthersKept(procs: Procs, procs': Procs, parked: map<nat, Source>) {
    procs'.Keys == procs.Keys && forall q :: q in procs && q !in parked ==> procs'[q] == procs[q]
  }

  lemma OthersKeptTrans(a: Procs, b: Procs, c: Procs, parked: map<nat, Source>, parked': map<nat, Source>)
    requires OthersKept(a, b, parked) && OthersKept(b, c, parked') && parked'.Keys <= parked.Keys
    ensures OthersKept(a, c, parked)
  {
    forall q | q in a && q !in parked ensures c[q] == a[q] { assert q !in parked'.Keys; }
  }

  lemma RunningNotParked(procs: Procs, queue: seq<nat>, parked: map<nat, Source>, next: nat, fds: Fds, but: set<nat>,
                         pid: nat)
    requires GoodProcs(procs, queue, parked, next, fds, but) && Is(procs, pid, Running)
    ensures pid !in parked && pid in fds && pid < next
  {
    assert Shown(0, procs, queue);
  }

  // ---- waiting and reaping ----

  lemma WaitingOk(procs: Procs, queue: seq<nat>, parked: map<nat, Source>, next: nat, fds: Fds, pid: nat)
    requires GoodProcs(procs, queue, parked, next, fds, {}) && Is(procs, pid, Running)
    requires procs[pid].children != [] && NoZombie(procs, procs[pid].children)
    ensures GoodProcs(With(procs, pid, Waiting), queue, parked, next, fds, {})
  {
    assert Shown(0, procs, queue);
    StartsWaiting(procs, queue, parked, next, pid, procs[pid].(state := Waiting));
    TablesKept(procs, pid, procs[pid].(state := Waiting), fds);
  }

  /** Where a process asked for its child's exit code to go. */
  lemma StatusOk(procs: Procs, queue: seq<nat>, parked: map<nat, Source>, next: nat, fds: Fds, but: set<nat>, pid: nat,
                 ptr: nat)
    requires GoodProcs(procs, queue, parked, next, fds, but) && Is(procs, pid, Running)
    ensures GoodProcs(procs[pid := procs[pid].(statusPtr := ptr)], queue, parked, next, fds, but)
  {
    assert Shown(0, procs, queue);
    var p := procs[pid].(statusPtr := ptr);
    StateKeepsTree(procs, pid, p);
    StateKeepsWait(procs, pid, p, but);
    RootKept(procs, next, pid, p);
    SamePark(procs, procs[pid := p], parked);
    forall q ensures q in queue <==> Is(procs[pid := p], q, Ready) { }
    TablesKept(procs, pid, p, fds);
  }

  lemma ClosedAway(fds: Fds, c: nat, s: Slot)
    requires c in fds && Closed(fds[c])
    ensures At(fds - {c}, s) == At(fds, s)
  {
  }

  lemma FdsShrink(fds: Fds, files: map<nat, File>, holders: Holders, pipes: map<nat, Pipe>, ends: map<nat, Ends>,
                  next: nat, c: nat)
    requires FilesOk(fds, files, holders, pipes, ends, next) && c in fds && Closed(fds[c])
    ensures FilesOk(fds - {c}, files, holders, pipes, ends, next)
  {
    forall s ensures At(fds - {c}, s) == At(fds, s) { ClosedAway(fds, c, s); }
  }

  lemma TablesReaped(procs: Procs, fds: Fds, pid: nat, c: nat)
    requires TablesOk(procs, fds) && pid in procs && c != pid
    ensures TablesOk(ReapTable(procs, pid, c), fds - {c})
  {
    var procs' := ReapTable(procs, pid, c);
    forall q | Is(procs', q, Zombie) ensures Closed((fds - {c})[q]) { assert Is(procs, q, Zombie); }
  }

  lemma ReapOk(procs: Procs, queue: seq<nat>, parked: map<nat, Source>, nextPid: nat, fds: Fds, but: set<nat>, pid: nat,
               c: nat, files: map<nat, File>, holders: Holders, pipes: map<nat, Pipe>, ends: map<nat, Ends>, next: nat)
    requires GoodProcs(procs, queue, parked, nextPid, fds, but) && pid in procs
      && procs[pid].state in {Running, Waiting}
    requires c in procs[pid].children && Is(procs, c, Zombie) && GoodFiles(fds, files, holders, pipes, ends, next)
    ensures GoodProcs(ReapTable(procs, pid, c), queue + [pid], parked, nextPid, fds - {c}, but - {pid})
    ensures GoodFiles(fds - {c}, files, holders, pipes, ends, next)
  {
    assert Shown(0, procs, queue);
    assert Shown(0, fds, pipes);
    Reaped(procs, queue, parked, nextPid, but, pid, c);
    TablesReaped(procs, fds, pid, c);
    FdsShrink(fds, files, holders, pipes, ends, next, c);
  }

  lemma {:induction false} ZombieNone(procs: Procs, pids: seq<nat>)
    requires NoZombie(procs, pids)
    ensures FirstZombie(procs, pids) == |pids|
  {
    if pids != [] {
      assert pids[0] in pids;
      assert NoZombie(procs, pids[1..]);
      ZombieNone(procs, pids[1..]);
    }
  }

  lemma {:induction false} ZombieAt(procs: Procs, pids: seq<nat>, i: nat)
    requires i < |pids| && Is(procs, pids[i], Zombie) && NoZombie(procs, pids[..i])
    ensures FirstZombie(procs, pids) == i
    decreases |pids|
  {
    if i > 0 {
      assert pids[0] in pids[..i];
      assert pids[1..][..i - 1] == pids[..i][1..];
      assert NoZombie(procs, pids[1..][..i - 1]);
      ZombieAt(procs, pids[1..], i - 1);
    }
  }

  /** Without a child that is there once, the others are left in order. */
  lemma {:induction false} WithoutOne(s: seq<nat>, i: nat)
    requires Distinct(s) && i < |s|
    ensures Without(s, s[i]) == s[..i] + s[i + 1..]
  {
    if i == 0 {
      WithoutNone(s[1..], s[0]);
    } else {
      assert s[1..][i - 1] == s[i] && s[0] != s[i];
      WithoutOne(s[1..], i - 1);
      assert [s[0]] + (s[1..][..i - 1] + s[1..][i..]) == s[..i] + s[i + 1..];
    }
  }

  lemma {:induction false} WithoutNone(s: seq<nat>, x: nat)
    requires x !in s
    ensures Without(s, x) == s
  {
    if s != [] { WithoutNone(s[1..], x); }
  }

  lemma ZombiesLeft(procs: Procs, pid: nat, c: nat, p: Proc)
    requires pid in procs && procs[pid].state != Zombie
    ensures var procs' := (procs - {c})[pid := p];
      forall q :: Is(procs, q, Zombie) ==> Is(procs', q, Zombie) || q !in procs'
  {
  }

  /** Noting where the status goes does not change which child is taken, nor what is left after it. */
  lemma AskedWait(s: Sys, u: Sys, pid: nat, ptr: nat)
    requires Is(s.procs, pid, Running) && u == s.(procs := s.procs[pid := s.procs[pid].(statusPtr := ptr)])
    ensures FirstZombie(u.procs, s.procs[pid].children) == FirstZombie(s.procs, s.procs[pid].children)
    ensures var i := FirstZombie(s.procs, s.procs[pid].children);
      i < |s.procs[pid].children| ==> ChildTaken(u, pid, i) == ChildTaken(s, pid, i)
  {
    SameZombies(s.procs, u.procs, s.procs[pid].children);
    var i := FirstZombie(s.procs, s.procs[pid].children);
    if i < |s.procs[pid].children| {
      ZombieFound(s.procs, s.procs[pid].children);
      var c := s.procs[pid].children[i];
      assert (u.procs - {c})[pid := s.procs[pid]] == (s.procs - {c})[pid := s.procs[pid]];
    }
  }

  lemma {:induction false} SameZombies(procs: Procs, procs': Procs, pids: seq<nat>)
    requires forall q :: Is(procs, q, Zombie) <==> Is(procs', q, Zombie)
    ensures FirstZombie(procs, pids) == FirstZombie(procs', pids)
  {
    if pids != [] { SameZombies(procs, procs', pids[1..]); }
  }

  lemma {:induction false} ZombieFound(procs: Procs, pids: seq<nat>)
    ensures FirstZombie(procs, pids) < |pids| ==> Is(procs, pids[FirstZombie(procs, pids)], Zombie)
  {
    if pids != [] { ZombieFound(procs, pids[1..]); }
  }

  lemma TakenIs(procs: Procs, queue: seq<nat>, parked: map<nat, Source>, next: nat, fds: Fds, but: set<nat>, pid: nat,
                i: nat)
    requires GoodProcs(procs, queue, parked, next, fds, but) && pid in procs && i < |procs[pid].children|
    requires Is(procs, procs[pid].children[i], Zombie) && NoZombie(procs, procs[pid].children[..i])
    ensures var kids := procs[pid].children;
      FirstZombie(procs, kids) == i && Without(kids, kids[i]) == kids[..i] + kids[i + 1..]
  {
    assert Shown(0, procs, queue);
    ZombieAt(procs, procs[pid].children, i);
    WithoutOne(procs[pid].children, i);
  }

  lemma NoReapOk(procs: Procs, queue: seq<nat>, parked: map<nat, Source>, next: nat, fds: Fds, but: set<nat>, pid: nat)
    requires GoodProcs(procs, queue, parked, next, fds, but)
    requires !Is(procs, pid, Waiting) || NoZombie(procs, procs[pid].children)
    ensures GoodProcs(procs, queue, parked, next, fds, but - {pid})
  {
    assert Shown(0, procs, queue);
  }

  // ---- descriptors ----

  function SetFd(t: seq<nat>, fd: nat, f: nat): (r: seq<nat>)
    requires fd < |t|
  {
    t[fd := f]
  }

  function WithFd(fds: Fds, pid: nat, fd: nat, f: nat): Fds
    requires pid in fds && fd < |fds[pid]|
  {
    fds[pid := SetFd(fds[pid], fd, f)]
  }

  lemma WithFdAt(fds: Fds, pid: nat, fd: nat, f: nat, s: Slot)
    requires pid in fds && fd < |fds[pid]|
    ensures At(WithFd(fds, pid, fd, f), s) == if s == Slot(pid, fd) then f else At(fds, s)
  {
  }

  lemma WithFdOthers(fds: Fds, pid: nat, fd: nat, f: nat)
    requires pid in fds && fd < |fds[pid]|
    ensures At(WithFd(fds, pid, fd, f), Slot(pid, fd)) == f
    ensures forall t :: t != Slot(pid, fd) ==> At(WithFd(fds, pid, fd, f), t) == At(fds, t)
  {
    forall t ensures At(WithFd(fds, pid, fd, f), t) == if t == Slot(pid, fd) then f else At(fds, t) {
      WithFdAt(fds, pid, fd, f, t);
    }
  }

  /** Descriptors of a process that is no zombie do not concern the process table. */
  lemma FdsProcsOk(procs: Procs, queue: seq<nat>, parked: map<nat, Source>, next: nat, fds: Fds, but: set<nat>,
                   pid: nat, t: seq<nat>)
    requires GoodProcs(procs, queue, parked, next, fds, but) && pid in procs && procs[pid].state != Zombie
    ensures pid in fds && GoodProcs(procs, queue, parked, next, fds[pid := t], but)
  {
    assert Shown(0, procs, queue);
  }

  lemma DupOk(fds: Fds, files: map<nat, File>, holders: Holders, pipes: map<nat, Pipe>, ends: map<nat, Ends>, next: nat,
              pid: nat, fd: nat, f: nat)
    requires GoodFiles(fds, files, holders, pipes, ends, next) && pid in fds && fd < |fds[pid]| && fds[pid][fd] == 0
      && f in files
    ensures f in holders
    ensures GoodFiles(WithFd(fds, pid, fd, f), files[f := files[f].(ref := files[f].ref + 1)],
        holders[f := holders[f] + {Slot(pid, fd)}], pipes, ends, next)
  {
    assert Shown(0, fds, pipes);
    WithFdOthers(fds, pid, fd, f);
    var s :| s in holders[f];
    assert Holds(holders, f, s);
    Dupped(fds, files, holders, pipes, ends, next, Slot(pid, fd), f, WithFd(fds, pid, fd, f));
  }

  lemma OpenOk(fds: Fds, files: map<nat, File>, holders: Holders, pipes: map<nat, Pipe>, ends: map<nat, Ends>,
               next: nat, pid: nat, fd: nat, file: File)
    requires GoodFiles(fds, files, holders, pipes, ends, next) && pid in fds && fd < |fds[pid]| && fds[pid][fd] == 0
    requires file.kind != PipeEnd && file.ref == 1
    ensures GoodFiles(WithFd(fds, pid, fd, next), files[next := file], holders[next := {Slot(pid, fd)}], pipes, ends,
        next + 1)
  {
    assert Shown(0, fds, pipes);
    WithFdOthers(fds, pid, fd, next);
    Opened(fds, files, holders, pipes, ends, next, Slot(pid, fd), file, WithFd(fds, pid, fd, next));
  }

  /** An open descriptor names an open file; a pipe end names a pipe. */
  lemma FdOk(fds: Fds, files: map<nat, File>, holders: Holders, pipes: map<nat, Pipe>, ends: map<nat, Ends>, next: nat,
             pid: nat, fd: nat)
    requires GoodFiles(fds, files, holders, pipes, ends, next) && pid in fds && fd < |fds[pid]| && fds[pid][fd] != 0
    ensures var f := fds[pid][fd]; f in files && f in holders && Slot(pid, fd) in holders[f] && files[f].ref >= 1
    ensures var f := fds[pid][fd]; files[f].ref == 1 <==> holders[f] == {Slot(pid, fd)}
    ensures var f := fds[pid][fd];
      files[f].kind == PipeEnd ==> files[f].pipe in pipes && files[f].readable != files[f].writable
  {
    assert Shown(0, fds, pipes);
    WithFdOthers(fds, pid, fd, 0);
    ClosedOne(fds, files, holders, pipes, ends, next, Slot(pid, fd), fds[pid][fd], WithFd(fds, pid, fd, 0));
  }

  lemma CloseOneOk(fds: Fds, files: map<nat, File>, holders: Holders, pipes: map<nat, Pipe>, ends: map<nat, Ends>,
                   next: nat, pid: nat, fd: nat)
    requires GoodFiles(fds, files, holders, pipes, ends, next) && pid in fds && fd < |fds[pid]| && fds[pid][fd] != 0
    requires var f := fds[pid][fd]; f in files && f in holders && files[f].ref > 1
    ensures var f := fds[pid][fd];
      GoodFiles(WithFd(fds, pid, fd, 0), files[f := files[f].(ref := files[f].ref - 1)],
          holders[f := holders[f] - {Slot(pid, fd)}], pipes, ends, next)
  {
    assert Shown(0, fds, pipes);
    WithFdOthers(fds, pid, fd, 0);
    ClosedOne(fds, files, holders, pipes, ends, next, Slot(pid, fd), fds[pid][fd], WithFd(fds, pid, fd, 0));
  }

  lemma CloseLastOk(fds: Fds, files: map<nat, File>, holders: Holders, pipes: map<nat, Pipe>, ends: map<nat, Ends>,
                    next: nat, pid: nat, fd: nat, pipes': map<nat, Pipe>)
    requires GoodFiles(fds, files, holders, pipes, ends, next) && pid in fds && fd < |fds[pid]| && fds[pid][fd] != 0
    requires var f := fds[pid][fd];
      f in files && f in holders && holders[f] == {Slot(pid, fd)}
      && (files[f].kind == PipeEnd ==> files[f].pipe in pipes)
    requires var f := fds[pid][fd];
      pipes' == if files[f].kind == PipeEnd
        then pipes[files[f].pipe := EndClosed(pipes[files[f].pipe], files[f].writable)] else pipes
    ensures GoodFiles(WithFd(fds, pid, fd, 0), files - {fds[pid][fd]}, holders - {fds[pid][fd]}, pipes', ends, next)
  {
    assert Shown(0, fds, pipes);
    WithFdOthers(fds, pid, fd, 0);
    ClosedLast(fds, files, holders, pipes, ends, next, Slot(pid, fd), fds[pid][fd], WithFd(fds, pid, fd, 0), pipes');
  }

  /** Closing an end leaves at most that pipe with readers to be served. */
  lemma EndClosedOk(pipes: map<nat, Pipe>, input: seq<Waiter>, parked: map<nat, Source>, written: map<nat, seq<u8>>,
                    taken: map<nat, seq<Read>>, p: nat, writable: bool)
    requires GoodPipes(pipes, input, parked, written, taken, {}) && p in pipes
    ensures GoodPipes(pipes[p := EndClosed(pipes[p], writable)], input, parked, written, taken, {p})
    ensures !writable ==> GoodPipes(pipes[p := EndClosed(pipes[p], writable)], input, parked, written, taken, {})
    ensures EndClosed(pipes[p], writable).writers != 0 ==>
      GoodPipes(pipes[p := EndClosed(pipes[p], writable)], input, parked, written, taken, {})
  {
    assert Shown(0, pipes, parked);
    ParkingSame(pipes, pipes[p := EndClosed(pipes[p], writable)], input, parked);
    HistorySame(pipes, pipes[p := EndClosed(pipes[p], writable)], written, taken);
  }

  lemma DupIs(s: Sys, u: Sys, pid: nat, fd: nat, nfd: nat)
    requires pid in s.fds && FdOf(s, pid, fd) != 0 && nfd == LowestFrom(s.fds[pid], 0) < |s.fds[pid]|
    requires var f := FdOf(s, pid, fd);
      f in s.files
        && u == s.(fds := WithFd(s.fds, pid, nfd, f), files := s.files[f := s.files[f].(ref := s.files[f].ref + 1)])
    ensures Readied(u, pid, nfd) == AfterDup(s, pid, fd)
  {
  }

  /** The last descriptor of an end of a pipe is gone, and no one has been told. */
  function EndDropped(s: Sys, pid: nat, fd: nat): Sys {
    var f := FdOf(s, pid, fd);
    var file := FileOf(s, f);
    WithEntry(s, pid, fd, 0).(files := s.files - {f},
        pipes := s.pipes[file.pipe := EndClosed(PipeOf(s, file.pipe), file.writable)])
  }

  lemma DroppedEnd(s: Sys, u: Sys, pid: nat, fd: nat, bad: set<nat>)
    requires var f := FdOf(s, pid, fd); FileOf(s, f).ref <= 1 && FileOf(s, f).kind == PipeEnd
    requires u == EndDropped(s, pid, fd)
    ensures var file := FileOf(s, FdOf(s, pid, fd));
      file.pipe in u.pipes && Dropped(s, pid, fd, bad)
        == if file.writable && u.pipes[file.pipe].writers == 0 then Serviced(u, file.pipe, bad) else u
  {
  }

  // ---- fork and exit ----

  /** The child is there, without open files. */
  function Begotten(s: Sys, pid: nat, child: nat): Sys {
    var parent := ProcOf(s, pid);
    s.(procs := s.procs[pid := parent.(children := parent.children + [child])][child := Proc(Ready, 0, pid, [], 0, 0)],
        queue := s.queue + [child], nextPid := child + 1, fds := s.fds[child := seq(|TableOf(s, pid)|, i => 0)])
  }

  lemma ForkIs(s: Sys, u: Sys, v: Sys, pid: nat, child: nat)
    requires u == Begotten(s, pid, child) && child == s.nextPid != pid && pid in s.procs && pid in s.fds
    requires var t := s.fds[pid]; v == u.(fds := u.fds[child := t], files := Shared(s.files, t, |t|))
    ensures Readied(v, pid, child) == AfterFork(s, pid)
  {
    assert v.fds == s.fds[child := s.fds[pid]];
  }

  lemma ForkOk(procs: Procs, queue: seq<nat>, parked: map<nat, Source>, nextPid: nat, fds: Fds, pid: nat, child: Proc,
               t: seq<nat>, files: map<nat, File>, holders: Holders, pipes: map<nat, Pipe>, ends: map<nat, Ends>,
               next: nat)
    requires GoodProcs(procs, queue, parked, nextPid, fds, {}) && Is(procs, pid, Running)
      && GoodFiles(fds, files, holders, pipes, ends, next)
    requires child.state == Ready && child.parent == pid && child.children == [] && Closed(t)
    ensures nextPid !in procs && nextPid !in fds && pid != nextPid
    ensures GoodProcs(ForkTable(procs, pid, nextPid, child), queue + [nextPid], parked, nextPid + 1, fds[nextPid := t],
        {})
    ensures GoodFiles(fds[nextPid := t], files, holders, pipes, ends, next)
  {
    assert Shown(0, procs, queue);
    assert Shown(0, fds, pipes);
    assert nextPid !in procs;
    Forked(procs, queue, parked, nextPid, pid, child);
    TablesForked(procs, fds, pid, nextPid, child, t);
    FdsGrow(fds, files, holders, pipes, ends, next, nextPid, t);
  }

  lemma TablesForked(procs: Procs, fds: Fds, pid: nat, next: nat, child: Proc, t: seq<nat>)
    requires TablesOk(procs, fds) && Is(procs, pid, Running) && next !in procs && child.state == Ready
    ensures TablesOk(ForkTable(procs, pid, next, child), fds[next := t])
  {
    var procs' := ForkTable(procs, pid, next, child);
    forall q | Is(procs', q, Zombie) ensures Closed(fds[next := t][q]) { assert Is(procs, q, Zombie); }
  }

  lemma FdsGrow(fds: Fds, files: map<nat, File>, holders: Holders, pipes: map<nat, Pipe>, ends: map<nat, Ends>,
                next: nat, c: nat, t: seq<nat>)
    requires FilesOk(fds, files, holders, pipes, ends, next) && c !in fds && Closed(t)
    ensures FilesOk(fds[c := t], files, holders, pipes, ends, next)
  {
    var fds' := fds[c := t];
    forall s ensures At(fds', s) == At(fds, s) { }
    forall s | At(fds', s) != 0 ensures Holds(holders, At(fds', s), s) { assert At(fds, s) != 0; }
    forall f, s | Holds(holders, f, s) ensures At(fds', s) == f && f != 0 { assert At(fds, s) == f; }
  }

  /** A new process without open files. */
  function Born(s: Sys): Sys {
    s.(procs := s.procs[s.nextPid := Proc(Ready, 0, 0, [], 0, 0)], queue := s.queue + [s.nextPid],
        nextPid := s.nextPid + 1, fds := s.fds[s.nextPid := seq(NFD, _ => 0)])
  }

  lemma BornIs(s: Sys, u: Sys)
    requires u == Born(s)
    ensures var v := Installed(u, s.nextPid, 0, File(Console, true, false, 1, 0));
      AfterSpawn(s) == Installed(Installed(v, s.nextPid, 1, File(Console, false, true, 1, 0)), s.nextPid, 2,
          File(Console, false, true, 1, 0))
  {
  }

  lemma SpawnOk(procs: Procs, queue: seq<nat>, parked: map<nat, Source>, nextPid: nat, fds: Fds, p: Proc, t: seq<nat>,
                files: map<nat, File>, holders: Holders, pipes: map<nat, Pipe>, ends: map<nat, Ends>, next: nat)
    requires GoodProcs(procs, queue, parked, nextPid, fds, {}) && GoodFiles(fds, files, holders, pipes, ends, next)
    requires p.state == Ready && p.parent == 0 && p.children == [] && Closed(t)
    ensures nextPid !in fds
      && GoodProcs(procs[nextPid := p], queue + [nextPid], parked, nextPid + 1, fds[nextPid := t], {})
    ensures GoodFiles(fds[nextPid := t], files, holders, pipes, ends, next)
  {
    assert Shown(0, procs, queue);
    assert Shown(0, fds, pipes);
    assert nextPid !in procs;
    Spawned(procs, queue, parked, nextPid, p);
    FdsGrow(fds, files, holders, pipes, ends, next, nextPid, t);
    var procs' := procs[nextPid := p];
    forall q | Is(procs', q, Zombie) ensures Closed(fds[nextPid := t][q]) { assert Is(procs, q, Zombie); }
  }

  lemma ExitOk(procs: Procs, procs': Procs, queue: seq<nat>, parked: map<nat, Source>, next: nat, fds: Fds, pid: nat,
               code: int, heir: nat)
    requires GoodProcs(procs, queue, parked, next, fds, {}) && Is(procs, pid, Running) && HeirOk(procs, pid, heir)
    requires ExitOf(procs, procs', pid, code, heir) && pid in fds && Closed(fds[pid])
    ensures GoodProcs(procs', queue, parked, next, fds, {procs[pid].parent, heir})
  {
    assert Shown(0, procs, queue);
    Exited(procs, procs', queue, parked, next, pid, code, heir);
    forall q | Is(procs', q, Zombie) ensures Closed(fds[q]) { if q != pid { assert Is(procs, q, Zombie); } }
  }

  /** A child is no one's parent and no heir of the process that exits. */
  lemma ExitApart(procs: Procs, queue: seq<nat>, parked: map<nat, Source>, next: nat, fds: Fds, pid: nat, heir: nat)
    requires GoodProcs(procs, queue, parked, next, fds, {}) && pid in procs && HeirOk(procs, pid, heir)
    ensures Distinct(procs[pid].children) && pid !in procs[pid].children && heir !in procs[pid].children
    ensures forall c :: c in procs[pid].children ==> c in procs
    ensures heir != pid && (heir != 0 ==> heir in procs)
  {
    assert Shown(0, procs, queue);
    HeirApart(procs, next, pid, heir);
  }

  /** A process without open files is gone, and those waiting for it or its children know. */
  function Gone(s: Sys, pid: nat, code: int): Sys {
    var heir := if 1 in s.procs && pid != 1 then 1 else 0;
    Relieved(Relieved(s.(procs := Buried(s.procs, pid, code, heir)), heir), ProcOf(s, pid).parent)
  }

  lemma BuriedIs(procs: Procs, procs': Procs, pid: nat, code: int, heir: nat)
    requires ExitOf(procs, procs', pid, code, heir) && heir !in procs[pid].children
    ensures procs' == Buried(procs, pid, code, heir)
  {
    forall q | q in procs ensures procs'[q] == Buried(procs, pid, code, heir)[q] {
      assert procs'[q] == ExitProc(procs, pid, code, heir, q);
    }
  }

  lemma NoPidZero(procs: Procs, queue: seq<nat>, parked: map<nat, Source>, next: nat, fds: Fds)
    requires GoodProcs(procs, queue, parked, next, fds, {})
    ensures 0 !in procs
  {
    assert Shown(0, procs, queue);
  }

  /** The first n children have been given a new parent. */
  ghost predicate Adopted(procs: Procs, procs': Procs, kids: seq<nat>, n: nat, heir: nat)
    requires n <= |kids|
  {
    procs'.Keys == procs.Keys
      && forall p :: p in procs ==> procs'[p] == if p in kids[..n] then procs[p].(parent := heir) else procs[p]
  }

  lemma AdoptOne(procs: Procs, procs': Procs, kids: seq<nat>, n: nat, heir: nat)
    requires n < |kids| && Adopted(procs, procs', kids, n, heir) && Distinct(kids) && kids[n] in procs
    ensures Adopted(procs, procs'[kids[n] := procs'[kids[n]].(parent := heir)], kids, n + 1, heir)
  {
    assert kids[..n + 1] == kids[..n] + [kids[n]];
    assert kids[n] !in kids[..n];
  }

  lemma ExitBuilt(procs: Procs, mid: Procs, pid: nat, code: int, heir: nat, procs': Procs)
    requires pid in procs && Adopted(procs, mid, procs[pid].children, |procs[pid].children|, heir)
    requires pid !in procs[pid].children && heir !in procs[pid].children && heir != pid && (heir != 0 ==> heir in procs)
    requires var dead := mid[pid := mid[pid].(state := Zombie, exitCode := code, children := [])];
      procs' == if heir == 0 then dead
        else dead[heir := dead[heir].(children := dead[heir].children + procs[pid].children)]
    requires 0 !in procs
    ensures ExitOf(procs, procs', pid, code, heir)
  {
    var kids := procs[pid].children;
    assert kids[..|kids|] == kids;
  }

  // ---- reading and writing ----

  /** The descriptor is the write end of pipe p. */
  predicate WritesTo(fds: Fds, files: map<nat, File>, pid: nat, fd: nat, p: nat) {
    var f := At(fds, Slot(pid, fd));
    f != 0 && f in files && files[f].writable && files[f].kind == PipeEnd && files[f].pipe == p
  }

  /** The descriptor is the read end of pipe p. */
  predicate ReadsFrom(fds: Fds, files: map<nat, File>, pid: nat, fd: nat, p: nat) {
    var f := At(fds, Slot(pid, fd));
    f != 0 && f in files && files[f].readable && files[f].kind == PipeEnd && files[f].pipe == p
  }

  lemma PlacedIs(s: Sys, u: Sys, pid: nat, r: nat, w: nat)
    requires pid in s.fds && r < |s.fds[pid]| && w < |s.fds[pid]|
    requires var p := s.nextFile;
      u == s.(fds := s.fds[pid := SetFd(SetFd(s.fds[pid], r, p), w, p + 1)],
          files := s.files[p := File(PipeEnd, true, false, 1, p)][p + 1 := File(PipeEnd, false, true, 1, p)],
          pipes := s.pipes[p := Pipe([], 1, 1, [])], nextFile := p + 2)
    ensures u.(written := s.written[s.nextFile := []], taken := s.taken[s.nextFile := []]) == PipePlaced(s, pid, r, w)
  {
  }

  /** Bytes are appended to a pipe. */
  lemma WriteOk(pipes: map<nat, Pipe>, input: seq<Waiter>, parked: map<nat, Source>, written: map<nat, seq<u8>>,
                taken: map<nat, seq<Read>>, p: nat, data: seq<u8>)
    requires GoodPipes(pipes, input, parked, written, taken, {}) && p in pipes
    ensures p in written
      && GoodPipes(pipes[p := pipes[p].(buffer := pipes[p].buffer + data)], input, parked,
        written[p := written[p] + data], taken, {p})
  {
    assert Shown(0, pipes, parked);
    ParkingSame(pipes, pipes[p := pipes[p].(buffer := pipes[p].buffer + data)], input, parked);
    HistoryWritten(pipes, written, taken, p, data, pipes[p].(buffer := pipes[p].buffer + data));
  }

  /** Bytes are taken from the front of a pipe no one is parked on, or that has run dry for good. */
  lemma TakeOk(pipes: map<nat, Pipe>, input: seq<Waiter>, parked: map<nat, Source>, written: map<nat, seq<u8>>,
               taken: map<nat, seq<Read>>, p: nat, n: nat, fault: bool)
    requires GoodPipes(pipes, input, parked, written, taken, {}) && p in pipes && n <= |pipes[p].buffer|
    ensures p in taken
    ensures GoodPipes(pipes[p := pipes[p].(buffer := pipes[p].buffer[n..])], input, parked, written,
        taken[p := taken[p] + [Read(pipes[p].buffer[..n], fault)]], {})
  {
    assert Shown(0, pipes, parked);
    ParkingSame(pipes, pipes[p := pipes[p].(buffer := pipes[p].buffer[n..])], input, parked);
    HistoryTaken(pipes, written, taken, p, n, fault, pipes[p].(buffer := pipes[p].buffer[n..]));
  }

  /** What a pipe holds is no concern of the descriptors. */
  lemma BufferOk(fds: Fds, files: map<nat, File>, holders: Holders, pipes: map<nat, Pipe>, ends: map<nat, Ends>,
                 next: nat, p: nat, pipe: Pipe)
    requires GoodFiles(fds, files, holders, pipes, ends, next) && p in pipes
    requires pipe.readers == pipes[p].readers && pipe.writers == pipes[p].writers
    ensures GoodFiles(fds, files, holders, pipes[p := pipe], ends, next)
  {
    assert Shown(0, fds, pipes);
    PipeSameCounts(files, pipes, pipes[p := pipe], ends);
  }

  lemma ParkOnPipe(pipes: map<nat, Pipe>, input: seq<Waiter>, parked: map<nat, Source>, written: map<nat, seq<u8>>,
                   taken: map<nat, seq<Read>>, p: nat, w: Waiter)
    requires GoodPipes(pipes, input, parked, written, taken, {}) && p in pipes && w.pid !in parked
    requires pipes[p].buffer == [] && pipes[p].writers != 0
    ensures GoodPipes(pipes[p := pipes[p].(waiters := pipes[p].waiters + [w])], input, parked[w.pid := OnPipe(p)],
        written, taken, {})
  {
    assert Shown(0, pipes, parked);
    ParkingPushed(pipes, input, parked, p, w);
    HistorySame(pipes, pipes[p := pipes[p].(waiters := pipes[p].waiters + [w])], written, taken);
  }

  lemma ParkOnKeyboard(pipes: map<nat, Pipe>, input: seq<Waiter>, parked: map<nat, Source>, written: map<nat, seq<u8>>,
                       taken: map<nat, seq<Read>>, w: Waiter)
    requires GoodPipes(pipes, input, parked, written, taken, {}) && w.pid !in parked
    ensures GoodPipes(pipes, input + [w], parked[w.pid := Keyboard], written, taken, {})
  {
    assert Shown(0, pipes, parked);
    ParkingKeyboard(pipes, input, parked, w);
  }

  lemma TypedOk(pipes: map<nat, Pipe>, input: seq<Waiter>, parked: map<nat, Source>, written: map<nat, seq<u8>>,
                taken: map<nat, seq<Read>>)
    requires GoodPipes(pipes, input, parked, written, taken, {}) && input != []
    ensures input[0].pid in parked && GoodPipes(pipes, input[1..], parked - {input[0].pid}, written, taken, {})
  {
    assert Shown(0, pipes, parked);
    ParkingTyped(pipes, input, parked);
  }

  lemma BlockOk(procs: Procs, queue: seq<nat>, parked: map<nat, Source>, next: nat, fds: Fds, pid: nat, on: Source)
    requires GoodProcs(procs, queue, parked, next, fds, {}) && Is(procs, pid, Running)
    ensures GoodProcs(With(procs, pid, Blocked), queue, parked[pid := on], next, fds, {})
  {
    assert Shown(0, procs, queue);
    Parked(procs, queue, parked, next, pid, on);
    TablesKept(procs, pid, procs[pid].(state := Blocked), fds);
  }

  lemma PipeMade(fds: Fds, files: map<nat, File>, holders: Holders, pipes: map<nat, Pipe>, ends: map<nat, Ends>,
                 next: nat, pid: nat, r: nat, w: nat, fds': Fds, files': map<nat, File>, holders': Holders,
                 pipes': map<nat, Pipe>, ends': map<nat, Ends>)
    requires GoodFiles(fds, files, holders, pipes, ends, next) && pid in fds && r < |fds[pid]| && w < |fds[pid]|
      && r != w
    requires fds[pid][r] == 0 && fds[pid][w] == 0 && fds' == fds[pid := SetFd(SetFd(fds[pid], r, next), w, next + 1)]
    requires files' == files[next := File(PipeEnd, true, false, 1, next)][next + 1 := File(PipeEnd, false, true, 1,
        next)]
    requires holders' == holders[next := {Slot(pid, r)}][next + 1 := {Slot(pid, w)}]
    requires pipes' == pipes[next := Pipe([], 1, 1, [])] && ends' == ends[next := Ends(next, next + 1)]
    ensures next !in pipes && GoodFiles(fds', files', holders', pipes', ends', next + 2)
  {
    assert Shown(0, fds, pipes);
    Piped(fds, files, holders, pipes, ends, next, Slot(pid, r), Slot(pid, w), fds', files', holders', pipes', ends');
  }

  lemma NewPipeId(fds: Fds, files: map<nat, File>, holders: Holders, pipes: map<nat, Pipe>, ends: map<nat, Ends>,
                  next: nat)
    requires GoodFiles(fds, files, holders, pipes, ends, next)
    ensures next !in pipes && next !in files && next > 0
  {
    assert Shown(0, fds, pipes);
  }

  /** A new pipe is empty and has no history. */
  lemma NoneYet(pipes: map<nat, Pipe>, input: seq<Waiter>, parked: map<nat, Source>, written: map<nat, seq<u8>>,
                taken: map<nat, seq<Read>>, p: nat)
    requires GoodPipes(pipes, input, parked, written, taken, {}) && p !in pipes
    ensures Longer(written, written[p := []]) && Longer(taken, taken[p := []])
    ensures GoodPipes(pipes[p := Pipe([], 1, 1, [])], input, parked, written[p := []], taken[p := []], {})
  {
    assert Shown(0, pipes, parked);
    ParkingNew(pipes, input, parked, p);
    HistoryNew(pipes, written, taken, p);
  }

  lemma ParkingNew(pipes: map<nat, Pipe>, input: seq<Waiter>, parked: map<nat, Source>, p: nat)
    requires ParkingOk(pipes, input, parked) && p !in pipes
    ensures ParkingOk(pipes[p := Pipe([], 1, 1, [])], input, parked)
  {
    assert Shown(0, pipes, input);
    assert ListOk([], parked, OnPipe(p));
  }

  lemma HistoryNew(pipes: map<nat, Pipe>, written: map<nat, seq<u8>>, taken: map<nat, seq<Read>>, p: nat)
    requires HistoryOk(pipes, written, taken) && p !in pipes
    ensures HistoryOk(pipes[p := Pipe([], 1, 1, [])], written[p := []], taken[p := []])
    ensures Longer(written, written[p := []]) && Longer(taken, taken[p := []])
  {
    HistoryIs(pipes, written, taken);
  }

  lemma PipeAdded(fds: Fds, files: map<nat, File>, holders: Holders, pipes: map<nat, Pipe>, ends: map<nat, Ends>,
                  p: nat, input: seq<Waiter>, parked: map<nat, Source>, written: map<nat, seq<u8>>,
                  taken: map<nat, seq<Read>>)
    requires GoodFiles(fds, files, holders, pipes, ends, p) && GoodPipes(pipes, input, parked, written, taken, {})
    ensures Longer(written, written[p := []]) && Longer(taken, taken[p := []])
    ensures GoodPipes(pipes[p := Pipe([], 1, 1, [])], input, parked, written[p := []], taken[p := []], {})
  {
    NewPipeId(fds, files, holders, pipes, ends, p);
    NoneYet(pipes, input, parked, written, taken, p);
  }

  // ---- what every state of a run satisfies ----

  /** What the invariant says, spelled out: the ready queue is the ready processes, once each; parents and
      children agree; a waiting process has a child and no zombie one. */
  ghost predicate ProcsPromised(procs: Procs, queue: seq<nat>) {
    && Distinct(queue) && (forall pid :: pid in queue <==> Is(procs, pid, Ready))
    && (forall p, c :: p in procs && p != 0 && c in procs ==> (c in procs[p].children <==> procs[c].parent == p))
    && (forall p :: Is(procs, p, Waiting) ==> procs[p].children != [] && NoZombie(procs, procs[p].children))
  }

  /** Bytes come out of a pipe in the order they went in, and all that were written are those that reads took
      and those it holds; readers got them all exactly when no faulting read took any; and a parked reader's
      pipe is empty and has a writer. */
  ghost predicate BytesPromised(pipes: map<nat, Pipe>, written: map<nat, seq<u8>>, taken: map<nat, seq<Read>>) {
    && (forall p :: p in pipes ==> p in written && p in taken && written[p] == Taken(taken[p]) + pipes[p].buffer)
    && (forall p :: p in pipes ==> (Delivered(taken[p]) + pipes[p].buffer == written[p] <==> Lossless(taken[p])))
    && (forall p :: p in pipes && pipes[p].waiters != [] ==> pipes[p].buffer == [] && pipes[p].writers != 0)
  }

  /** A pipe has a writer, or a reader, exactly when a descriptor refers to that end. */
  ghost predicate EndsPromised(fds: Fds, files: map<nat, File>, pipes: map<nat, Pipe>) {
    && (forall p :: p in pipes ==> (pipes[p].writers > 0 <==> exists s: Slot :: WritesTo(fds, files, s.pid, s.fd, p)))
    && (forall p :: p in pipes ==> (pipes[p].readers > 0 <==> exists s: Slot :: ReadsFrom(fds, files, s.pid, s.fd, p)))
    && (forall p :: p in pipes ==> pipes[p].writers >= 0 && pipes[p].readers >= 0)
  }

  ghost predicate PipesPromised(fds: Fds, files: map<nat, File>, pipes: map<nat, Pipe>, written: map<nat, seq<u8>>,
                                taken: map<nat, seq<Read>>) {
    BytesPromised(pipes, written, taken) && EndsPromised(fds, files, pipes)
  }

  lemma Promises(procs: Procs, queue: seq<nat>, parked: map<nat, Source>, nextPid: nat, fds: Fds,
                 files: map<nat, File>, holders: Holders, pipes: map<nat, Pipe>, ends: map<nat, Ends>, next: nat,
                 input: seq<Waiter>, written: map<nat, seq<u8>>, taken: map<nat, seq<Read>>)
    requires GoodProcs(procs, queue, parked, nextPid, fds, {}) && GoodFiles(fds, files, holders, pipes, ends, next)
    requires GoodPipes(pipes, input, parked, written, taken, {})
    ensures ProcsPromised(procs, queue) && PipesPromised(fds, files, pipes, written, taken)
  {
    PromisesProcs(procs, queue, parked, nextPid, fds);
    PromisesBytes(pipes, input, parked, written, taken);
    PromisesFiles(fds, files, holders, pipes, ends, next);
  }

  lemma PromisesProcs(procs: Procs, queue: seq<nat>, parked: map<nat, Source>, nextPid: nat, fds: Fds)
    requires GoodProcs(procs, queue, parked, nextPid, fds, {})
    ensures ProcsPromised(procs, queue)
  {
    assert Shown(0, procs, queue);
    PromisesTree(procs);
  }

  lemma PromisesBytes(pipes: map<nat, Pipe>, input: seq<Waiter>, parked: map<nat, Source>, written: map<nat, seq<u8>>,
                      taken: map<nat, seq<Read>>)
    requires GoodPipes(pipes, input, parked, written, taken, {})
    ensures BytesPromised(pipes, written, taken)
  {
    assert Shown(0, pipes, parked);
    HistoryIs(pipes, written, taken);
    forall p | p in pipes ensures Delivered(taken[p]) + pipes[p].buffer == written[p] <==> Lossless(taken[p]) {
      DeliveredIff(taken[p], pipes[p].buffer, written[p]);
    }
  }

  lemma PromisesFiles(fds: Fds, files: map<nat, File>, holders: Holders, pipes: map<nat, Pipe>, ends: map<nat, Ends>,
                      next: nat)
    requires GoodFiles(fds, files, holders, pipes, ends, next)
    ensures EndsPromised(fds, files, pipes)
  {
    assert Shown(0, fds, pipes);
    forall p | p in pipes
      ensures pipes[p].writers > 0 <==> exists s: Slot :: WritesTo(fds, files, s.pid, s.fd, p)
      ensures pipes[p].readers > 0 <==> exists s: Slot :: ReadsFrom(fds, files, s.pid, s.fd, p)
      ensures pipes[p].writers >= 0 && pipes[p].readers >= 0
    {
      PromisesEnds(fds, files, holders, pipes, ends, next, p);
    }
  }

  lemma PromisesTree(procs: Procs)
    requires TreeOk(procs)
    ensures forall p, c :: p in procs && p != 0 && c in procs ==> (c in procs[p].children <==> procs[c].parent == p)
  {
    forall p, c | p in procs && p != 0 && c in procs ensures c in procs[p].children <==> procs[c].parent == p {
      if procs[c].parent == p { assert IsChild(procs, procs[c].parent, c); }
    }
  }

  lemma PromisesEnds(fds: Fds, files: map<nat, File>, holders: Holders, pipes: map<nat, Pipe>, ends: map<nat, Ends>,
                     next: nat, p: nat)
    requires FilesOk(fds, files, holders, pipes, ends, next) && p in pipes
    ensures pipes[p].writers > 0 <==> exists s: Slot :: WritesTo(fds, files, s.pid, s.fd, p)
    ensures pipes[p].readers > 0 <==> exists s: Slot :: ReadsFrom(fds, files, s.pid, s.fd, p)
    ensures pipes[p].writers >= 0 && pipes[p].readers >= 0
  {
    WriterIff(fds, files, holders, pipes, ends, next, p);
    if pipes[p].writers > 0 {
      var s: Slot :| At(fds, s) in files && files[At(fds, s)].kind == PipeEnd && files[At(fds, s)].pipe == p
        && files[At(fds, s)].writable;
      assert s == Slot(s.pid, s.fd);
      var t :| t in holders[At(fds, s)];
      assert Holds(holders, At(fds, s), t);
      assert WritesTo(fds, files, s.pid, s.fd, p);
    }
    if pipes[p].readers > 0 {
      var s: Slot :| At(fds, s) in files && files[At(fds, s)].kind == PipeEnd && files[At(fds, s)].pipe == p
        && !files[At(fds, s)].writable;
      assert s == Slot(s.pid, s.fd);
      var t :| t in holders[At(fds, s)];
      assert Holds(holders, At(fds, s), t);
      assert ReadsFrom(fds, files, s.pid, s.fd, p);
    }
    forall s: Slot | WritesTo(fds, files, s.pid, s.fd, p) ensures pipes[p].writers > 0 {
      assert s == Slot(s.pid, s.fd);
      assert At(fds, s) in files;
    }
    forall s: Slot | ReadsFrom(fds, files, s.pid, s.fd, p) ensures pipes[p].readers > 0 {
      assert s == Slot(s.pid, s.fd);
      assert At(fds, s) in files;
    }
  }

  /** A write through a descriptor for the write end of a pipe that has readers appends all the bytes to what
      was written to it; any other write leaves the pipes alone, and fails unless the file is no pipe. */
  ghost predicate FdWrites(pipes: map<nat, Pipe>, pipes': map<nat, Pipe>, written: map<nat, seq<u8>>,
                           written': map<nat, seq<u8>>, fds: Fds, files: map<nat, File>, pid: nat, fd: nat,
                           data: seq<u8>, fault: bool, r0: int) {
    var f := At(fds, Slot(pid, fd));
    if !fault && f != 0 && f in files && files[f].writable && files[f].kind == PipeEnd && files[f].pipe in pipes
      && pipes[files[f].pipe].readers != 0 then
      var p := files[f].pipe;
      r0 == |data| && p in written && written' == written[p := written[p] + data]
    else
      && written' == written && pipes' == pipes
      && (fault || f == 0 || f !in files || !files[f].writable || files[f].kind == PipeEnd ==> r0 == ERR)
  }

  /** Bytes are in a pipe, and no reader has been served yet. */
  function Poured(s: Sys, p: nat, data: seq<u8>): Sys {
    s.(pipes := s.pipes[p := PipeOf(s, p).(buffer := PipeOf(s, p).buffer + data)],
        written := s.written[p := WrittenOf(s, p) + data])
  }

  /** A read of a pipe: it parks the process on an empty pipe that can still be written; otherwise it takes
      bytes from the front, and gives their count, or an error when they cannot be copied out. */
  ghost predicate PipeReads(pipes: map<nat, Pipe>, pipes': map<nat, Pipe>, taken: map<nat, seq<Read>>,
                            taken': map<nat, seq<Read>>, procs: Procs, w: Waiter, p: nat, fault: bool)
    requires p in pipes
  {
    if pipes[p].buffer == [] && pipes[p].writers != 0 then
      && Is(procs, w.pid, Blocked) && taken' == taken
      && pipes' == pipes[p := pipes[p].(waiters := pipes[p].waiters + [w])]
    else
      var k := Amount(pipes[p].buffer, w.len);
      && Is(procs, w.pid, Ready) && procs[w.pid].r0 == (if fault then ERR else k) && p in taken
      && taken' == taken[p := taken[p] + [Read(pipes[p].buffer[..k], fault)]]
      && pipes' == pipes[p := pipes[p].(buffer := pipes[p].buffer[k..])]
  }

  /** A read of the keyboard: it parks the process when nothing is typed and more may be; otherwise it takes keys
      from the front, and gives their count, or an error when they cannot be copied out. */
  ghost predicate KeyReads(keys: seq<u8>, keys': seq<u8>, closed: bool, input: seq<Waiter>, input': seq<Waiter>,
                           procs: Procs, w: Waiter, fault: bool) {
    if keys == [] && !closed then Is(procs, w.pid, Blocked) && keys' == keys && input' == input + [w]
    else
      && Is(procs, w.pid, Ready) && procs[w.pid].r0 == (if fault then ERR else Amount(keys, w.len))
      && keys' == keys[Amount(keys, w.len)..] && input' == input
  }

  /** The readers served, those parked but for the ones left, are the first, and are made ready in order. */
  ghost predicate FirstServed(ws: seq<Waiter>, left: seq<Waiter>, queue: seq<nat>, queue': seq<nat>) {
    var n: int := |ws| - |left|;
    n >= 0 && left == ws[n..] && queue' == queue + Pids(ws[..n])
  }

  lemma NoneServed(ws: seq<Waiter>, queue: seq<nat>)
    ensures FirstServed(ws, ws, queue, queue)
  {
    assert ws[..0] == [] && Pids([]) == [];
  }

  lemma FirstServedNext(ws: seq<Waiter>, left: seq<Waiter>, queue: seq<nat>, queue': seq<nat>)
    requires ws != [] && FirstServed(ws[1..], left, queue + [ws[0].pid], queue')
    ensures FirstServed(ws, left, queue, queue')
  {
    var m := |ws[1..]| - |left|;
    assert Pids(ws[..m + 1]) == [ws[0].pid] + Pids(ws[1..][..m]);
  }

  /** Each of them read at most what was asked for, faulting when its address is bad. */
  ghost predicate EachRead(s: Service, t: Service, bad: set<nat>) {
    var n: int := |s.pipe.waiters| - |t.pipe.waiters|;
    && n >= 0 && |t.done| == |s.done| + n && s.done <= t.done
    && forall i :: 0 <= i < n ==> ReadFor(t.done[|s.done| + i], s.pipe.waiters[i], bad)
  }

  predicate ReadFor(read: Read, w: Waiter, bad: set<nat>) { |read.bytes| <= w.len && (read.fault <==> w.pid in bad) }

  /** Nothing is left in the pipe, and reads from number i on got nothing. */
  ghost predicate Empty(t: Service, i: int) {
    t.pipe.buffer == [] && forall j :: i <= j < |t.done| && 0 <= j ==> t.done[j].bytes == []
  }

  /** A read got all it asked for, or else all that was left. */
  ghost predicate Greedy(s: Service, t: Service) {
    forall i :: 0 <= i < |s.pipe.waiters| && |s.done| + i < |t.done| ==>
      |t.done[|s.done| + i].bytes| >= s.pipe.waiters[i].len || Empty(t, |s.done| + i + 1)
  }

  lemma {:induction false} StaysEmpty(s: Service, bad: set<nat>)
    requires s.pipe.buffer == []
    ensures Empty(ServeAll(s, bad), |s.done|) && s.done <= ServeAll(s, bad).done
    decreases |s.pipe.waiters|
  {
    if Serviceable(s.pipe) {
      var u, t := ServeOne(s, bad), ServeAll(s, bad);
      StaysEmpty(u, bad);
      assert t.done[|s.done|] == u.done[|s.done|];
    }
  }

  lemma GreedyNext(s: Service, u: Service, t: Service, bad: set<nat>)
    requires s.pipe.waiters != [] && u == ServeOne(s, bad) && t == ServeAll(u, bad) && Greedy(u, t) && u.done <= t.done
    ensures Greedy(s, t)
  {
    var ws := s.pipe.waiters;
    forall i | 0 <= i < |ws| && |s.done| + i < |t.done|
      ensures |t.done[|s.done| + i].bytes| >= ws[i].len || Empty(t, |s.done| + i + 1)
    {
      if i == 0 {
        assert t.done[|s.done|] == u.done[|s.done|] == FirstRead(s.pipe, bad);
        if u.pipe.buffer == [] { StaysEmpty(u, bad); }
      } else {
        assert u.pipe.waiters[i - 1] == ws[i];
      }
    }
  }

  /** Readers are served in order, each gets what it asked for or else all that is left, and no byte is added or
      left out between the reads and the pipe; afterwards no reader can be served. */
  lemma {:induction false} ServedInOrder(s: Service, bad: set<nat>)
    ensures var t := ServeAll(s, bad);
      && FirstServed(s.pipe.waiters, t.pipe.waiters, s.queue, t.queue) && EachRead(s, t, bad) && Greedy(s, t)
      && SameBytes(s, t) && !Serviceable(t.pipe)
    decreases |s.pipe.waiters|
  {
    var t := ServeAll(s, bad);
    if Serviceable(s.pipe) {
      var u := ServeOne(s, bad);
      ServedInOrder(u, bad);
      FirstServedNext(s.pipe.waiters, t.pipe.waiters, s.queue, t.queue);
      EachReadNext(s, u, t, bad);
      GreedyNext(s, u, t, bad);
      SameBytesNext(s, u, t, bad);
    } else {
      NoneServed(s.pipe.waiters, s.queue);
    }
  }

  ghost predicate SameBytes(s: Service, t: Service) {
    Taken(t.done) + t.pipe.buffer == Taken(s.done) + s.pipe.buffer
  }

  lemma SameBytesNext(s: Service, u: Service, t: Service, bad: set<nat>)
    requires s.pipe.waiters != [] && u == ServeOne(s, bad) && SameBytes(u, t)
    ensures SameBytes(s, t)
  {
    var k := Amount(s.pipe.buffer, s.pipe.waiters[0].len);
    TakenMore(s.done, FirstRead(s.pipe, bad));
    assert s.pipe.buffer == s.pipe.buffer[..k] + s.pipe.buffer[k..];
  }

  lemma EachReadNext(s: Service, u: Service, t: Service, bad: set<nat>)
    requires s.pipe.waiters != [] && u == ServeOne(s, bad) && EachRead(u, t, bad)
    ensures EachRead(s, t, bad)
  {
    var ws, m := s.pipe.waiters, |u.pipe.waiters| - |t.pipe.waiters|;
    var read := FirstRead(s.pipe, bad);
    assert u.done == s.done + [read] && t.done[|s.done|] == u.done[|s.done|] == read;
    forall i | 0 <= i < m + 1 ensures ReadFor(t.done[|s.done| + i], ws[i], bad) {
      if i > 0 { assert ReadFor(t.done[|u.done| + (i - 1)], u.pipe.waiters[i - 1], bad); }
    }
  }

  /** Readers of the keyboard are served in order, keys go out from the front, and readers are left only when there
      is nothing to give them. */
  lemma {:induction false} FedInOrder(s: Typing, closed: bool, bad: set<nat>)
    ensures var t := FeedAll(s, closed, bad);
      && FirstServed(s.input, t.input, s.queue, t.queue) && Suffix(t.keys, s.keys)
      && (t.input == [] || (t.keys == [] && !closed))
    decreases |s.input|
  {
    if s.input != [] && (s.keys != [] || closed) {
      var u, t := FeedOne(s, bad), FeedAll(s, closed, bad);
      FedInOrder(u, closed, bad);
      FirstServedNext(s.input, t.input, s.queue, t.queue);
      SuffixTrans(t.keys, u.keys, s.keys);
    } else {
      NoneServed(s.input, s.queue);
    }
  }

  predicate Suffix(a: seq<u8>, b: seq<u8>) { |a| <= |b| && a == b[|b| - |a|..] }

  lemma SuffixTrans(a: seq<u8>, b: seq<u8>, c: seq<u8>)
    requires Suffix(a, b) && Suffix(b, c)
    ensures Suffix(a, c)
  {
  }

  /** A parked process is made ready with the result of its read. */
  ghost predicate Woken(procs: Procs, procs': Procs, queue: seq<nat>, queue': seq<nat>,
                        parked: map<nat, Source>, parked': map<nat, Source>, pid: nat, r0: int)
  {
    && pid in procs && queue' == queue + [pid] && parked' == parked - {pid}
    && procs' == procs[pid := procs[pid].(state := Ready, r0 := r0)]
  }

  class Kernel {
    var procs: Procs
    var queue: seq<nat>
    var nextPid: nat
    var fds: Fds
    var files: map<nat, File>
    var pipes: map<nat, Pipe>
    var nextFile: nat
    var input: seq<Waiter>
    var keys: seq<u8>
    var closed: bool

    /** What each blocked process waits for, which descriptors refer to each open file, the two ends of
        each pipe, and everything ever written to and read from each pipe. */
    ghost var parked: map<nat, Source>
    ghost var holders: Holders
    ghost var ends: map<nat, Ends>
    ghost var written: map<nat, seq<u8>>
    ghost var taken: map<nat, seq<Read>>

    constructor ()
      ensures Valid() && procs == map[] && queue == []
    {
      procs, queue, nextPid, fds, files, pipes, nextFile := map[], [], 1, map[], map[], map[], 1;
      input, keys, closed := [], [], false;
      parked, holders, ends, written, taken := map[], map[], map[], map[], map[];
    }

    ghost function Now(): Sys
      reads this
    {
      Sys(procs, queue, nextPid, fds, files, pipes, nextFile, input, keys, closed, written, taken)
    }

    ghost predicate ProcPart(but: set<nat>)
      reads `procs, `queue, `parked, `nextPid, `fds
    {
      GoodProcs(procs, queue, parked, nextPid, fds, but)
    }

    ghost predicate FilePart()
      reads `fds, `files, `holders, `pipes, `ends, `nextFile
    {
      GoodFiles(fds, files, holders, pipes, ends, nextFile)
    }

    ghost predicate PipePart(but: set<nat>)
      reads `pipes, `input, `parked, `written, `taken
    {
      GoodPipes(pipes, input, parked, written, taken, but)
    }

    ghost predicate KeyPart()
      reads `input, `keys, `closed
    {
      input != [] ==> keys == [] && !closed
    }

    ghost predicate Valid()
      reads this
    {
      ProcPart({}) && FilePart() && PipePart({}) && KeyPart()
    }

    // ---- scheduling ----

    /** Takes the first ready process. */
    method Schedule() returns (pid: nat)
      requires Valid() && queue != []
      modifies `procs, `queue
      ensures Valid() && pid == old(queue[0]) && queue == old(queue[1..])
      ensures pid in old(procs) && procs == With(old(procs), pid, Running)
    {
      ScheduleOk(procs, queue, parked, nextPid, fds);
      pid := queue[0];
      queue := queue[1..];
      procs := procs[pid := procs[pid].(state := Running)];
    }

    /** The end of a time slice, and of every system call that does not block: back to the tail. */
    method MakeReady(pid: nat, r0: int, ghost but: set<nat>)
      requires ProcPart(but) && pid in procs && procs[pid].state in {Running, Waiting}
      modifies `procs, `queue
      ensures ProcPart(but) && queue == old(queue) + [pid]
      ensures procs == old(procs)[pid := old(procs[pid]).(state := Ready, r0 := r0)]
      ensures Now() == Readied(old(Now()), pid, r0)
    {
      ReadyOk(procs, queue, parked, nextPid, fds, but, pid, r0);
      procs := procs[pid := procs[pid].(state := Ready, r0 := r0)];
      queue := queue + [pid];
    }

    // ---- pipes ----

    /** Serves the first parked reader of a pipe: it gets the count of the bytes taken for it, or an error when
        they cannot be copied out, and they are taken all the same. */
    method ServeReader(p: nat, bad: set<nat>, ghost but: set<nat>)
      requires ProcPart(but) && FilePart() && PipePart({p}) && p in pipes && pipes[p].waiters != []
      modifies `procs, `queue, `pipes, `parked, `taken
      ensures ProcPart(but) && FilePart() && PipePart({p}) && pipes == old(pipes)[p := Served(old(pipes[p]))]
      ensures Woken(old(procs), procs, old(queue), queue, old(parked), parked, old(pipes[p].waiters[0].pid),
          Returns(FirstRead(old(pipes[p]), bad)))
      ensures p in old(taken) && taken == old(taken)[p := old(taken)[p] + [FirstRead(old(pipes[p]), bad)]]
      ensures OthersKept(old(procs), procs, old(parked))
    {
      var w := pipes[p].waiters[0];
      var n := Amount(pipes[p].buffer, w.len);
      ServeOk(fds, files, holders, pipes, ends, nextFile, input, parked, written, taken, p, n, w.pid in bad);
      var after := pipes[p := Served(pipes[p])];
      ghost var got := taken[p := taken[p] + [FirstRead(pipes[p], bad)]];
      Wake(w.pid, Returns(FirstRead(pipes[p], bad)), but);
      pipes, taken := after, got;
    }

    /** A parked process is made ready with the result of its read. */
    method Wake(pid: nat, r0: int, ghost but: set<nat>)
      requires ProcPart(but) && pid in parked
      modifies `procs, `queue, `parked
      ensures ProcPart(but) && Woken(old(procs), procs, old(queue), queue, old(parked), parked, pid, r0)
      ensures OthersKept(old(procs), procs, old(parked))
    {
      WakeOk(procs, queue, parked, nextPid, fds, but, pid, r0);
      procs := procs[pid := procs[pid].(state := Ready, r0 := r0)];
      queue := queue + [pid];
      parked := parked - {pid};
    }

    /** Serves parked readers for as long as there is data, or all of them once no writer is left. */
    method ServicePipeReaders(p: nat, bad: set<nat>, ghost but: set<nat>)
      requires ProcPart(but) && FilePart() && PipePart({p}) && p in pipes
      modifies `procs, `queue, `pipes, `parked, `taken
      ensures ProcPart(but) && FilePart() && PipePart({})
      ensures pipes.Keys == old(pipes.Keys) && old(queue) <= queue && Longer(old(taken), taken)
      ensures OthersKept(old(procs), procs, old(parked))
      ensures parked.Keys <= old(parked.Keys)
      ensures p in old(taken)
      ensures var t := ServeAll(old(Service(pipes[p], procs, queue, taken[p])), bad);
        procs == t.procs && queue == t.queue && pipes == old(pipes)[p := t.pipe] && taken == old(taken)[p := t.done]
      ensures Now() == Serviced(old(Now()), p, bad)
    {
      KnownPipe(pipes, input, parked, written, taken, p);
      ghost var s := Service(pipes[p], procs, queue, taken[p]);
      ServeReaders(p, bad, but, s);
      AllServed(pipes, input, parked, written, taken, p);
      ServedInOrder(s, bad);
    }

    /** Only pipe p and its reads have changed, and serving its readers will still come to the same. */
    ghost predicate Serving(p: nat, bad: set<nat>, pipes0: map<nat, Pipe>, taken0: map<nat, seq<Read>>, s: Service)
      reads `procs, `queue, `pipes, `taken
    {
      && p in pipes && p in taken && pipes == pipes0[p := pipes[p]] && taken == taken0[p := taken[p]]
      && ServeAll(Service(pipes[p], procs, queue, taken[p]), bad) == ServeAll(s, bad)
    }

    method ServeReaders(p: nat, bad: set<nat>, ghost but: set<nat>, ghost s: Service)
      requires ProcPart(but) && FilePart() && PipePart({p}) && p in pipes && p in taken
      requires s == Service(pipes[p], procs, queue, taken[p])
      modifies `procs, `queue, `pipes, `parked, `taken
      ensures ProcPart(but) && FilePart() && PipePart({p})
      ensures OthersKept(old(procs), procs, old(parked)) && parked.Keys <= old(parked.Keys)
      ensures Serving(p, bad, old(pipes), old(taken), s) && !Serviceable(pipes[p])
    {
      ghost var was, on, pipes0, taken0 := procs, parked, pipes, taken;
      while pipes[p].waiters != [] && (pipes[p].buffer != [] || pipes[p].writers == 0)
        invariant ProcPart(but) && FilePart() && PipePart({p}) && Serving(p, bad, pipes0, taken0, s)
        invariant OthersKept(was, procs, on) && parked.Keys <= on.Keys
        decreases |pipes[p].waiters|
      {
        ServeNext(p, bad, but, was, on, pipes0, taken0, s);
      }
    }

    method ServeNext(p: nat, bad: set<nat>, ghost but: set<nat>, ghost was: Procs, ghost on: map<nat, Source>,
                     ghost pipes0: map<nat, Pipe>, ghost taken0: map<nat, seq<Read>>, ghost s: Service)
      requires ProcPart(but) && FilePart() && PipePart({p}) && Serving(p, bad, pipes0, taken0, s)
      requires Serviceable(pipes[p]) && OthersKept(was, procs, on) && parked.Keys <= on.Keys
      modifies `procs, `queue, `pipes, `parked, `taken
      ensures ProcPart(but) && FilePart() && PipePart({p}) && Serving(p, bad, pipes0, taken0, s)
      ensures |pipes[p].waiters| < old(|pipes[p].waiters|)
      ensures OthersKept(was, procs, on) && parked.Keys <= on.Keys
    {
      ghost var before, now := procs, parked;
      ghost var u := Service(pipes[p], procs, queue, taken[p]);
      ServeReader(p, bad, but);
      OthersKeptTrans(was, before, procs, on, now);
      assert Service(pipes[p], procs, queue, taken[p]) == ServeOne(u, bad);
    }

    // ---- wait ----

    /** The place of the first zombie child, or the number of children. */
    method FindZombie(pid: nat) returns (i: nat)
      requires pid in procs
      ensures var kids := procs[pid].children;
        i == FirstZombie(procs, kids) <= |kids| && NoZombie(procs, kids[..i])
          && (i < |kids| ==> Is(procs, kids[i], Zombie))
    {
      i := 0;
      while i < |procs[pid].children|
        invariant 0 <= i <= |procs[pid].children| && NoZombie(procs, procs[pid].children[..i])
      {
        var c := procs[pid].children[i];
        if c in procs && procs[c].state == Zombie {
          ZombieAt(procs, procs[pid].children, i);
          return;
        }
        i := i + 1;
      }
      assert procs[pid].children[..i] == procs[pid].children;
      ZombieNone(procs, procs[pid].children);
    }

    /** Takes a zombie child away and makes the parent ready with its number. */
    method Reap(pid: nat, i: nat, ghost but: set<nat>)
      requires ProcPart(but) && FilePart() && pid in procs && procs[pid].state in {Running, Waiting}
      requires i < |procs[pid].children| && Is(procs, procs[pid].children[i], Zombie)
        && NoZombie(procs, procs[pid].children[..i])
      modifies `procs, `queue, `fds
      ensures ProcPart(but - {pid}) && FilePart() && Is(procs, pid, Ready)
      ensures forall q :: Is(old(procs), q, Zombie) ==> Is(procs, q, Zombie) || q !in procs
      ensures Now() == ChildTaken(old(Now()), pid, i)
    {
      var c := procs[pid].children[i];
      ReapOk(procs, queue, parked, nextPid, fds, but, pid, c, files, holders, pipes, ends, nextFile);
      TakenIs(procs, queue, parked, nextPid, fds, but, pid, i);
      var p := procs[pid].(children := Without(procs[pid].children, c), statusPtr := 0, r0 := c, state := Ready);
      ZombiesLeft(procs, pid, c, p);
      procs := (procs - {c})[pid := p];
      queue := queue + [pid];
      fds := fds - {c};
    }

    /** Reaps the first zombie child, if there is one, and makes the parent ready with its number. */
    method TryReap(pid: nat, ghost but: set<nat>) returns (reaped: bool)
      requires ProcPart(but) && FilePart() && pid in procs && procs[pid].state in {Running, Waiting}
      modifies `procs, `queue, `fds
      ensures ProcPart(but - {pid}) && FilePart()
      ensures reaped <==> !NoZombie(old(procs), old(procs[pid].children))
      ensures forall q :: Is(old(procs), q, Zombie) ==> Is(procs, q, Zombie) || q !in procs
      ensures if reaped then Is(procs, pid, Ready) else procs == old(procs)
      ensures Now() == ChildTaken(old(Now()), pid, FirstZombie(old(procs), old(procs[pid].children)))
    {
      var i := FindZombie(pid);
      reaped := i < |procs[pid].children|;
      if reaped {
        Reap(pid, i, but);
      } else {
        assert procs[pid].children[..i] == procs[pid].children;
        NoReapOk(procs, queue, parked, nextPid, fds, but, pid);
      }
    }

    /** Reaps a zombie child now, or waits for one; fails when there are no children. */
    method SysWait(pid: nat, statusPtr: nat)
      requires Valid() && Is(procs, pid, Running)
      modifies `procs, `queue, `fds
      ensures Valid()
      ensures Now() == AfterWait(old(Now()), pid, statusPtr)
    {
      if procs[pid].children == [] {
        MakeReady(pid, ERR, {});
        return;
      }
      ghost var s := Now();
      StatusOk(procs, queue, parked, nextPid, fds, {}, pid, statusPtr);
      procs := procs[pid := procs[pid].(statusPtr := statusPtr)];
      AskedWait(s, Now(), pid, statusPtr);
      var reaped := TryReap(pid, {});
      assert {} - {pid} == {};
      if !reaped {
        WaitingOk(procs, queue, parked, nextPid, fds, pid);
        procs := procs[pid := procs[pid].(state := Waiting)];
      }
    }

    // ---- descriptors ----

    /** Drops a descriptor and its reference; the last reference to a pipe end closes the end, and the
        last write end wakes the readers. */
    method CloseFd(pid: nat, fd: nat, bad: set<nat>, ghost but: set<nat>)
      requires ProcPart(but) && FilePart() && PipePart({}) && pid in procs && procs[pid].state != Zombie
      requires pid in fds && fd < |fds[pid]| && fds[pid][fd] != 0
      modifies `procs, `queue, `fds, `files, `pipes, `parked, `holders, `taken
      ensures ProcPart(but) && FilePart() && PipePart({}) && fds == WithFd(old(fds), pid, fd, 0)
      ensures OthersKept(old(procs), procs, old(parked))
      ensures Longer(old(taken), taken)
      ensures parked.Keys <= old(parked.Keys)
      ensures Now() == Dropped(old(Now()), pid, fd, bad)
    {
      var f := fds[pid][fd];
      FdOk(fds, files, holders, pipes, ends, nextFile, pid, fd);
      FdsProcsOk(procs, queue, parked, nextPid, fds, but, pid, SetFd(fds[pid], fd, 0));
      if files[f].ref > 1 {
        DropOne(pid, fd, f, but);
      } else if files[f].kind != PipeEnd {
        DropFile(pid, fd, f, but);
      } else {
        CloseLast(pid, fd, f, bad, but);
      }
    }

    /** One descriptor of several goes. */
    method DropOne(pid: nat, fd: nat, f: nat, ghost but: set<nat>)
      requires FilePart() && pid in fds && fd < |fds[pid]| && fds[pid][fd] == f != 0 && f in files && f in holders
      requires files[f].ref > 1 && GoodProcs(procs, queue, parked, nextPid, fds[pid := SetFd(fds[pid], fd, 0)], but)
      modifies `fds, `files, `holders, `pipes
      ensures ProcPart(but) && FilePart() && fds == WithFd(old(fds), pid, fd, 0) && pipes == old(pipes)
      ensures forall bad :: Now() == Dropped(old(Now()), pid, fd, bad)
    {
      CloseOneOk(fds, files, holders, pipes, ends, nextFile, pid, fd);
      SetTables(fds[pid := SetFd(fds[pid], fd, 0)], files[f := files[f].(ref := files[f].ref - 1)],
        holders[f := holders[f] - {Slot(pid, fd)}], pipes);
    }

    /** The last descriptor of a file goes, and the file with it. */
    method DropFile(pid: nat, fd: nat, f: nat, ghost but: set<nat>)
      requires FilePart() && pid in fds && fd < |fds[pid]| && fds[pid][fd] == f != 0 && f in files && f in holders
      requires files[f].ref <= 1 && files[f].kind != PipeEnd && holders[f] == {Slot(pid, fd)}
        && GoodProcs(procs, queue, parked, nextPid, fds[pid := SetFd(fds[pid], fd, 0)], but)
      modifies `fds, `files, `holders
      ensures ProcPart(but) && FilePart() && fds == WithFd(old(fds), pid, fd, 0)
      ensures forall bad :: Now() == Dropped(old(Now()), pid, fd, bad)
    {
      CloseLastOk(fds, files, holders, pipes, ends, nextFile, pid, fd, pipes);
      files, holders := files - {f}, holders - {f};
      fds := fds[pid := SetFd(fds[pid], fd, 0)];
    }

    /** The last descriptor of a pipe end goes; when no writer is left the readers learn it. */
    method CloseLast(pid: nat, fd: nat, f: nat, bad: set<nat>, ghost but: set<nat>)
      requires ProcPart(but) && FilePart() && PipePart({}) && pid in fds && fd < |fds[pid]| && fds[pid][fd] == f != 0
      requires f in files && f in holders && holders[f] == {Slot(pid, fd)} && files[f].ref <= 1
        && files[f].kind == PipeEnd && files[f].pipe in pipes
      requires GoodProcs(procs, queue, parked, nextPid, fds[pid := SetFd(fds[pid], fd, 0)], but)
      modifies `procs, `queue, `fds, `files, `pipes, `parked, `holders, `taken
      ensures ProcPart(but) && FilePart() && PipePart({}) && fds == WithFd(old(fds), pid, fd, 0)
      ensures OthersKept(old(procs), procs, old(parked))
      ensures Longer(old(taken), taken)
      ensures parked.Keys <= old(parked.Keys)
      ensures Now() == Dropped(old(Now()), pid, fd, bad)
    {
      var file := files[f];
      ghost var s := Now();
      CloseEnd(pid, fd, f, file.pipe, file.writable);
      DroppedEnd(s, Now(), pid, fd, bad);
      if file.writable && pipes[file.pipe].writers == 0 {
        ServicePipeReaders(file.pipe, bad, but);
      }
    }

    /** The pipe has one writer or reader less. */
    method CloseEnd(pid: nat, fd: nat, f: nat, p: nat, writable: bool)
      requires FilePart() && PipePart({}) && pid in fds && fd < |fds[pid]| && fds[pid][fd] == f != 0
      requires f in files && f in holders && holders[f] == {Slot(pid, fd)}
      requires files[f].kind == PipeEnd && files[f].pipe == p && files[f].writable == writable && p in pipes
      modifies `fds, `files, `pipes, `holders
      ensures FilePart() && PipePart({p}) && fds == WithFd(old(fds), pid, fd, 0) && p in pipes
      ensures !(writable && pipes[p].writers == 0) ==> PipePart({})
      ensures Now() == EndDropped(old(Now()), pid, fd)
    {
      var pipe := if writable then pipes[p].(writers := pipes[p].writers - 1)
                  else pipes[p].(readers := pipes[p].readers - 1);
      EndClosedOk(pipes, input, parked, written, taken, p, writable);
      CloseLastOk(fds, files, holders, pipes, ends, nextFile, pid, fd, pipes[p := pipe]);
      SetTables(fds[pid := SetFd(fds[pid], fd, 0)], files - {f}, holders - {f}, pipes[p := pipe]);
    }

    method SetTables(fds': Fds, files': map<nat, File>, ghost holders': Holders, pipes': map<nat, Pipe>)
      modifies `fds, `files, `holders, `pipes
      ensures fds == fds' && files == files' && holders == holders' && pipes == pipes'
      ensures Now() == old(Now()).(fds := fds', files := files', pipes := pipes')
    {
      fds, files, holders, pipes := fds', files', holders', pipes';
    }

    /** Closes a descriptor; fails when it is not open. */
    method SysClose(pid: nat, fd: nat, bad: set<nat>)
      requires Valid() && Is(procs, pid, Running)
      modifies `procs, `queue, `fds, `files, `pipes, `parked, `holders, `taken
      ensures Valid() && Is(procs, pid, Ready)
      ensures Longer(old(taken), taken)
      ensures Now() == AfterClose(old(Now()), pid, fd, bad)
    {
      RunningNotParked(procs, queue, parked, nextPid, fds, {}, pid);
      if fd >= |fds[pid]| || fds[pid][fd] == 0 {
        MakeReady(pid, ERR, {});
        return;
      }
      CloseFd(pid, fd, bad, {});
      MakeReady(pid, 0, {});
    }

    /** The lowest closed descriptor of a process, from one on. */
    method FreeFd(pid: nat, from: nat) returns (fd: int)
      requires pid in fds && from <= |fds[pid]|
      ensures var n := LowestFrom(fds[pid], from);
        if fd == -1 then n == |fds[pid]| else fd == n < |fds[pid]| && fds[pid][fd] == 0
    {
      fd := from;
      while fd < |fds[pid]|
        invariant from <= fd <= |fds[pid]| && LowestFrom(fds[pid], from) == LowestFrom(fds[pid], fd)
      {
        if fds[pid][fd] == 0 { return; }
        fd := fd + 1;
      }
      fd := -1;
    }

    /** Makes a closed descriptor refer to an open file. */
    method AddFd(pid: nat, fd: nat, f: nat, ghost but: set<nat>)
      requires ProcPart(but) && FilePart() && pid in procs && procs[pid].state != Zombie
      requires pid in fds && fd < |fds[pid]| && fds[pid][fd] == 0 && f in files
      modifies `fds, `files, `holders, `pipes
      ensures ProcPart(but) && FilePart() && fds == WithFd(old(fds), pid, fd, f) && pipes == old(pipes)
      ensures files == old(files)[f := old(files)[f].(ref := old(files)[f].ref + 1)]
      ensures Now() == old(Now()).(fds := fds, files := files)
    {
      DupOk(fds, files, holders, pipes, ends, nextFile, pid, fd, f);
      FdsProcsOk(procs, queue, parked, nextPid, fds, but, pid, SetFd(fds[pid], fd, f));
      SetTables(fds[pid := SetFd(fds[pid], fd, f)], files[f := files[f].(ref := files[f].ref + 1)],
        holders[f := holders[f] + {Slot(pid, fd)}], pipes);
    }

    /** Duplicates a descriptor into the lowest closed one. */
    method SysDup(pid: nat, fd: nat)
      requires Valid() && Is(procs, pid, Running)
      modifies `procs, `queue, `fds, `files, `holders, `pipes
      ensures Valid() && Is(procs, pid, Ready)
      ensures Now() == AfterDup(old(Now()), pid, fd)
    {
      RunningNotParked(procs, queue, parked, nextPid, fds, {}, pid);
      if fd >= |fds[pid]| || fds[pid][fd] == 0 {
        MakeReady(pid, ERR, {});
        return;
      }
      var f := fds[pid][fd];
      var nfd := FreeFd(pid, 0);
      if nfd == -1 {
        MakeReady(pid, ERR, {});
        return;
      }
      FdOk(fds, files, holders, pipes, ends, nextFile, pid, fd);
      ghost var s := Now();
      AddFd(pid, nfd, f, {});
      DupIs(s, Now(), pid, fd, nfd);
      MakeReady(pid, nfd, {});
    }

    // ---- fork and exit ----

    /** Adds a child that shares every open file with its parent; both are ready, the child first. */
    method Fork(pid: nat) returns (child: nat)
      requires Valid() && Is(procs, pid, Running)
      modifies `procs, `queue, `nextPid, `fds, `files, `holders, `pipes
      ensures Valid() && child == old(nextPid) && child !in old(procs)
      ensures Now() == AfterFork(old(Now()), pid)
    {
      ghost var s := Now();
      child := AddChild(pid);
      ghost var u := Now();
      ShareFiles(pid, child);
      ForkIs(s, u, Now(), pid, child);
      MakeReady(pid, child, {});
    }

    method AddChild(pid: nat) returns (child: nat)
      requires Valid() && Is(procs, pid, Running)
      modifies `procs, `queue, `nextPid, `fds
      ensures ProcPart({}) && FilePart() && child == old(nextPid) && child !in old(procs)
        && queue == old(queue) + [child]
      ensures procs == ForkTable(old(procs), pid, child, Proc(Ready, 0, pid, [], 0, 0)) && child != pid
      ensures pid in old(fds) && child !in old(fds) && fds == old(fds)[child := seq(old(|fds[pid]|), i => 0)]
      ensures Now() == Begotten(old(Now()), pid, child)
    {
      RunningNotParked(procs, queue, parked, nextPid, fds, {}, pid);
      child := nextPid;
      var p := Proc(Ready, 0, pid, [], 0, 0);
      var t: seq<nat> := seq(|fds[pid]|, i => 0);
      ForkOk(procs, queue, parked, nextPid, fds, pid, p, t, files, holders, pipes, ends, nextFile);
      SetProcs(procs[pid := procs[pid].(children := procs[pid].children + [child])][child := p], queue + [child],
        nextPid + 1, fds[child := t]);
    }

    /** The child has the first n descriptors of its parent, and a reference for each. */
    ghost predicate Sharing(pid: nat, child: nat, n: nat, was: Fds, files0: map<nat, File>, pipes0: map<nat, Pipe>)
      reads `fds, `files, `pipes
    {
      && pid in was && child in fds && child != pid && n <= |was[pid]| == |fds[child]|
      && fds == was[child := fds[child]] && pipes == pipes0 && files == Shared(files0, was[pid], n)
      && forall i :: 0 <= i < |was[pid]| ==> fds[child][i] == if i < n then was[pid][i] else 0
    }

    /** Gives the child a reference to each file its parent has open. */
    method ShareFiles(pid: nat, child: nat)
      requires ProcPart({}) && FilePart() && pid in fds && child in fds && child != pid && child in procs
        && procs[child].state != Zombie
      requires fds[child] == seq(|fds[pid]|, i => 0)
      modifies `fds, `files, `holders, `pipes
      ensures ProcPart({}) && FilePart() && fds == old(fds)[child := old(fds[pid])] && pipes == old(pipes)
      ensures files == Shared(old(files), old(fds[pid]), old(|fds[pid]|))
    {
      var fd := 0;
      ghost var was, files0, pipes0 := fds, files, pipes;
      while fd < |fds[pid]|
        invariant 0 <= fd && ProcPart({}) && FilePart() && Sharing(pid, child, fd, was, files0, pipes0)
      {
        ShareNext(pid, child, fd, was, files0, pipes0);
        fd := fd + 1;
      }
      assert fds[child] == was[pid];
    }

    method ShareNext(pid: nat, child: nat, fd: nat, ghost was: Fds, ghost files0: map<nat, File>,
                     ghost pipes0: map<nat, Pipe>)
      requires ProcPart({}) && FilePart() && Sharing(pid, child, fd, was, files0, pipes0) && fd < |was[pid]|
        && child in procs && procs[child].state != Zombie
      modifies `fds, `files, `holders, `pipes
      ensures ProcPart({}) && FilePart() && Sharing(pid, child, fd + 1, was, files0, pipes0)
    {
      if fds[pid][fd] != 0 {
        FdOk(fds, files, holders, pipes, ends, nextFile, pid, fd);
        AddFd(child, fd, fds[pid][fd], {});
      }
    }

    /** Ends a process: its descriptors close, its children go to process 1, it becomes a zombie, and a
        process waiting for it, or for one of the children, is woken. */
    method Exit(pid: nat, code: int, bad: set<nat>)
      requires Valid() && Is(procs, pid, Running)
      modifies `procs, `queue, `fds, `files, `pipes, `parked, `holders, `taken
      ensures Valid() && (Is(procs, pid, Zombie) || pid !in procs) && Longer(old(taken), taken)
      ensures Now() == AfterExit(old(Now()), pid, code, bad)
    {
      CloseAll(pid, bad);
      Depart(pid, code);
    }

    /** A process without open files becomes a zombie, and those waiting for it or its children are woken. */
    method Depart(pid: nat, code: int)
      requires ProcPart({}) && FilePart() && Is(procs, pid, Running) && pid in fds && Closed(fds[pid])
      modifies `procs, `queue, `fds
      ensures ProcPart({}) && FilePart() && (Is(procs, pid, Zombie) || pid !in procs)
      ensures Now() == Gone(old(Now()), pid, code)
    {
      var parent := procs[pid].parent;
      var heir := if 1 in procs && pid != 1 then 1 else 0;
      Bury(pid, code, heir);
      WakeParents(parent, heir);
    }

    /** Processes waiting for the one that exited, or for its children, get their child. */
    method WakeParents(parent: nat, heir: nat)
      requires ProcPart({parent, heir}) && FilePart() && (heir != 0 ==> heir in procs) && 0 !in procs
      modifies `procs, `queue, `fds
      ensures ProcPart({}) && FilePart()
      ensures forall q :: Is(old(procs), q, Zombie) ==> Is(procs, q, Zombie) || q !in procs
      ensures Now() == Relieved(Relieved(old(Now()), heir), parent)
    {
      ghost var but := {parent, heir};
      Relieve(heir, but);
      but := but - {heir};
      Relieve(parent, but);
      assert but - {parent} == {};
    }

    /** A process that waits gets its first zombie child, if it has one. */
    method Relieve(pid: nat, ghost but: set<nat>)
      requires ProcPart(but) && FilePart()
      modifies `procs, `queue, `fds
      ensures ProcPart(but - {pid}) && FilePart()
      ensures forall q :: Is(old(procs), q, Zombie) ==> Is(procs, q, Zombie) || q !in procs
      ensures Now() == Relieved(old(Now()), pid)
    {
      if pid in procs && procs[pid].state == Waiting {
        var r := TryReap(pid, but);
      } else {
        NoReapOk(procs, queue, parked, nextPid, fds, but, pid);
      }
    }

    /** The descriptors below fd are closed, and closing the others will come to the target. */
    ghost predicate Closing(pid: nat, fd: nat, n: nat, bad: set<nat>, target: Sys, p: Proc)
      reads this
    {
      && pid in fds && fd <= n == |fds[pid]| && pid in procs && procs[pid] == p
      && (forall i :: 0 <= i < fd ==> fds[pid][i] == 0) && DroppedFrom(Now(), pid, fd, n, bad) == target
    }

    method CloseAll(pid: nat, bad: set<nat>)
      requires Valid() && Is(procs, pid, Running)
      modifies `procs, `queue, `fds, `files, `pipes, `parked, `holders, `taken
      ensures Valid() && Is(procs, pid, Running) && pid in fds && Closed(fds[pid])
      ensures Longer(old(taken), taken)
      ensures Now() == DroppedFrom(old(Now()), pid, 0, |TableOf(old(Now()), pid)|, bad)
    {
      RunningNotParked(procs, queue, parked, nextPid, fds, {}, pid);
      var fd, n := 0, |fds[pid]|;
      ghost var target, taken0, p := DroppedFrom(Now(), pid, 0, |fds[pid]|, bad), taken, procs[pid];
      while fd < n
        invariant 0 <= fd <= n && ProcPart({}) && FilePart() && PipePart({})
        invariant Closing(pid, fd, n, bad, target, p) && Longer(taken0, taken)
      {
        CloseNext(pid, fd, n, bad, target, p, taken0);
        fd := fd + 1;
      }
    }

    method CloseNext(pid: nat, fd: nat, n: nat, bad: set<nat>, ghost target: Sys, ghost p: Proc,
                     ghost taken0: map<nat, seq<Read>>)
      requires ProcPart({}) && FilePart() && PipePart({}) && p.state == Running && fd < n
      requires Closing(pid, fd, n, bad, target, p) && Longer(taken0, taken)
      modifies `procs, `queue, `fds, `files, `pipes, `parked, `holders, `taken
      ensures ProcPart({}) && FilePart() && PipePart({}) && Longer(taken0, taken)
      ensures Closing(pid, fd + 1, n, bad, target, p)
    {
      if fds[pid][fd] != 0 {
        RunningNotParked(procs, queue, parked, nextPid, fds, {}, pid);
        CloseFd(pid, fd, bad, {});
      }
    }

    /** The process becomes a zombie and its children get a new parent. */
    method Bury(pid: nat, code: int, heir: nat)
      requires ProcPart({}) && Is(procs, pid, Running) && HeirOk(procs, pid, heir) && pid in fds && Closed(fds[pid])
      modifies `procs
      ensures procs == Buried(old(procs), pid, code, heir) && ProcPart({old(procs[pid].parent), heir})
        && Is(procs, pid, Zombie)
      ensures (heir != 0 ==> heir in procs) && 0 !in procs
    {
      ExitApart(procs, queue, parked, nextPid, fds, pid, heir);
      NoPidZero(procs, queue, parked, nextPid, fds);
      ghost var was := procs;
      var kids := procs[pid].children;
      var i := 0;
      while i < |kids|
        invariant 0 <= i <= |kids| && Adopted(was, procs, kids, i, heir)
      {
        AdoptOne(was, procs, kids, i, heir);
        procs := procs[kids[i] := procs[kids[i]].(parent := heir)];
        i := i + 1;
      }
      ghost var mid := procs;
      procs := procs[pid := procs[pid].(state := Zombie, exitCode := code, children := [])];
      if heir != 0 {
        procs := procs[heir := procs[heir].(children := procs[heir].children + kids)];
      }
      ExitBuilt(was, mid, pid, code, heir, procs);
      ExitOk(was, procs, queue, parked, nextPid, fds, pid, code, heir);
      BuriedIs(was, procs, pid, code, heir);
    }

    // ---- read and write ----

    /** Writes to a pipe append; readers parked on it are served. Console and disk files are outside the
        model, and their result is given. Fails on a descriptor not open for writing, a bad address or
        a pipe no one can read. */
    method SysWrite(pid: nat, fd: nat, data: seq<u8>, fault: bool, n: int, bad: set<nat>)
      requires Valid() && Is(procs, pid, Running)
      modifies `procs, `queue, `pipes, `parked, `taken, `written
      ensures Valid() && Is(procs, pid, Ready) && Longer(old(written), written) && Longer(old(taken), taken)
      ensures FdWrites(old(pipes), pipes, old(written), written, fds, files, pid, fd, data, fault, procs[pid].r0)
      ensures Now() == AfterWrite(old(Now()), pid, fd, data, fault, n, bad)
    {
      RunningNotParked(procs, queue, parked, nextPid, fds, {}, pid);
      var r0 := WriteFd(pid, fd, data, fault, n, bad);
      MakeReady(pid, r0, {});
    }

    method WriteFd(pid: nat, fd: nat, data: seq<u8>, fault: bool, n: int, bad: set<nat>) returns (r0: int)
      requires Valid() && Is(procs, pid, Running) && pid !in parked && pid in fds
      modifies `procs, `queue, `pipes, `parked, `taken, `written
      ensures Valid() && Is(procs, pid, Running) && Longer(old(written), written) && Longer(old(taken), taken)
      ensures FdWrites(old(pipes), pipes, old(written), written, fds, files, pid, fd, data, fault, r0)
      ensures Readied(Now(), pid, r0) == AfterWrite(old(Now()), pid, fd, data, fault, n, bad)
    {
      if fd >= |fds[pid]| || fds[pid][fd] == 0 || fault { return ERR; }
      FdOk(fds, files, holders, pipes, ends, nextFile, pid, fd);
      var file := files[fds[pid][fd]];
      if !file.writable { return ERR; }
      if file.kind != PipeEnd { return n; }
      if pipes[file.pipe].readers == 0 { return ERR; }
      PipeWrite(file.pipe, data, bad);
      return |data|;
    }

    /** Appends to a pipe and serves its readers: all that was ever written grows by exactly data. */
    method PipeWrite(p: nat, data: seq<u8>, bad: set<nat>)
      requires ProcPart({}) && FilePart() && PipePart({}) && p in pipes
      modifies `procs, `queue, `pipes, `parked, `taken, `written
      ensures ProcPart({}) && FilePart() && PipePart({}) && p in old(written)
        && written == old(written)[p := old(written[p]) + data]
      ensures OthersKept(old(procs), procs, old(parked)) && pipes.Keys == old(pipes.Keys)
      ensures Longer(old(taken), taken)
      ensures Now() == Serviced(Poured(old(Now()), p, data), p, bad)
    {
      WriteOk(pipes, input, parked, written, taken, p, data);
      BufferOk(fds, files, holders, pipes, ends, nextFile, p, pipes[p].(buffer := pipes[p].buffer + data));
      written := written[p := written[p] + data];
      pipes := pipes[p := pipes[p].(buffer := pipes[p].buffer + data)];
      ServicePipeReaders(p, bad, {});
    }

    /** Reads take from the front of a pipe, or park the process on an empty one that can still be
        written; the same for the keyboard. */
    method SysRead(pid: nat, fd: nat, buf: nat, len: nat, fault: bool, n: int)
      requires Valid() && Is(procs, pid, Running)
      modifies `procs, `queue, `pipes, `parked, `taken, `input, `keys
      ensures Valid() && (Is(procs, pid, Ready) || Is(procs, pid, Blocked))
      ensures var f := At(fds, Slot(pid, fd));
        if f != 0 && f in files && files[f].readable && files[f].kind == PipeEnd && files[f].pipe in old(pipes) then
          PipeReads(old(pipes), pipes, old(taken), taken, procs, Waiter(pid, buf, len), files[f].pipe, fault)
        else taken == old(taken) && pipes == old(pipes)
      ensures var f := At(fds, Slot(pid, fd));
        f != 0 && f in files && files[f].readable && files[f].kind == Console ==>
        KeyReads(old(keys), keys, closed, old(input), input, procs, Waiter(pid, buf, len), fault)
      ensures Longer(old(taken), taken)
      ensures Now() == AfterRead(old(Now()), Waiter(pid, buf, len), fd, fault, n)
    {
      RunningNotParked(procs, queue, parked, nextPid, fds, {}, pid);
      if fd >= |fds[pid]| || fds[pid][fd] == 0 {
        MakeReady(pid, ERR, {});
        return;
      }
      FdOk(fds, files, holders, pipes, ends, nextFile, pid, fd);
      var file := files[fds[pid][fd]];
      if !file.readable {
        MakeReady(pid, ERR, {});
        return;
      }
      if file.kind == OnDisk {
        MakeReady(pid, if fault then ERR else n, {});
        return;
      }
      if file.kind == PipeEnd {
        PipeRead(Waiter(pid, buf, len), file.pipe, fault);
        return;
      }
      KeyRead(Waiter(pid, buf, len), fault);
    }

    method PipeRead(w: Waiter, p: nat, fault: bool)
      requires Valid() && Is(procs, w.pid, Running) && p in pipes && w.pid !in parked
      modifies `procs, `queue, `pipes, `parked, `taken
      ensures Valid() && PipeReads(old(pipes), pipes, old(taken), taken, procs, w, p, fault)
      ensures Longer(old(taken), taken)
      ensures Now() == PipeTaken(old(Now()), w, p, fault)
    {
      if pipes[p].buffer != [] || pipes[p].writers == 0 {
        PipeTake(w.pid, p, w.len, fault);
      } else {
        PipePark(w.pid, p, w);
      }
    }

    method PipeTake(pid: nat, p: nat, len: nat, fault: bool)
      requires Valid() && Is(procs, pid, Running) && p in pipes
      modifies `procs, `queue, `pipes, `taken
      ensures Valid() && Is(procs, pid, Ready)
      ensures var k := Amount(old(pipes[p].buffer), len);
        && p in old(taken) && taken == old(taken)[p := old(taken[p]) + [Read(old(pipes[p].buffer)[..k], fault)]]
        && pipes == old(pipes)[p := old(pipes[p]).(buffer := old(pipes[p].buffer)[k..])]
        && procs[pid].r0 == (if fault then ERR else k)
      ensures old(pipes[p].buffer) != [] || old(pipes[p].writers) == 0 ==>
        forall buf :: Now() == PipeTaken(old(Now()), Waiter(pid, buf, len), p, fault)
    {
      var k := Amount(pipes[p].buffer, len);
      TakeOk(pipes, input, parked, written, taken, p, k, fault);
      BufferOk(fds, files, holders, pipes, ends, nextFile, p, pipes[p].(buffer := pipes[p].buffer[k..]));
      taken := taken[p := taken[p] + [Read(pipes[p].buffer[..k], fault)]];
      pipes := pipes[p := pipes[p].(buffer := pipes[p].buffer[k..])];
      MakeReady(pid, if fault then ERR else k, {});
    }

    method PipePark(pid: nat, p: nat, w: Waiter)
      requires Valid() && Is(procs, pid, Running) && p in pipes && pid !in parked && w.pid == pid
      requires pipes[p].buffer == [] && pipes[p].writers != 0
      modifies `procs, `pipes, `parked
      ensures Valid() && Is(procs, pid, Blocked)
        && pipes == old(pipes)[p := old(pipes[p]).(waiters := old(pipes[p].waiters) + [w])]
      ensures forall fault :: Now() == PipeTaken(old(Now()), w, p, fault)
    {
      ParkOnPipe(pipes, input, parked, written, taken, p, w);
      BufferOk(fds, files, holders, pipes, ends, nextFile, p, pipes[p].(waiters := pipes[p].waiters + [w]));
      BlockOk(procs, queue, parked, nextPid, fds, pid, OnPipe(p));
      pipes := pipes[p := pipes[p].(waiters := pipes[p].waiters + [w])];
      procs := procs[pid := procs[pid].(state := Blocked)];
      parked := parked[pid := OnPipe(p)];
    }

    method KeyRead(w: Waiter, fault: bool)
      requires Valid() && Is(procs, w.pid, Running) && w.pid !in parked
      modifies `procs, `queue, `parked, `input, `keys
      ensures Valid() && KeyReads(old(keys), keys, closed, old(input), input, procs, w, fault)
      ensures Now() == KeysTaken(old(Now()), w, fault)
    {
      if keys != [] || closed {
        var k := Amount(keys, w.len);
        keys := keys[k..];
        MakeReady(w.pid, if fault then ERR else k, {});
      } else {
        ParkOnKeyboard(pipes, input, parked, written, taken, w);
        BlockOk(procs, queue, parked, nextPid, fds, w.pid, Keyboard);
        input := input + [w];
        procs := procs[w.pid := procs[w.pid].(state := Blocked)];
        parked := parked[w.pid := Keyboard];
      }
    }

    /** Keys are typed, or the input ends: parked readers are served in turn, until none is left or there is
        nothing to give them. */
    method Feed(typed: seq<u8>, end: bool, bad: set<nat>)
      requires Valid()
      modifies `procs, `queue, `parked, `input, `keys, `closed
      ensures Valid() && closed == (old(closed) || end) && (input == [] || (keys == [] && !closed))
      ensures Typing(keys, input, procs, queue)
        == FeedAll(old(Typing(keys + typed, input, procs, queue)), old(closed) || end, bad)
      ensures Now() == AfterTyping(old(Now()), typed, end, bad)
    {
      ServeInput(typed, end, bad);
    }

    method ServeInput(typed: seq<u8>, end: bool, bad: set<nat>)
      requires ProcPart({}) && PipePart({})
      modifies `procs, `queue, `parked, `input, `keys, `closed
      ensures ProcPart({}) && PipePart({}) && closed == (old(closed) || end) && (input == [] || (keys == [] && !closed))
      ensures Typing(keys, input, procs, queue)
        == FeedAll(old(Typing(keys + typed, input, procs, queue)), old(closed) || end, bad)
    {
      keys := keys + typed;
      closed := closed || end;
      ghost var s := Typing(keys, input, procs, queue);
      while input != [] && (keys != [] || closed)
        invariant ProcPart({}) && PipePart({}) && closed == (old(closed) || end)
        invariant FeedAll(Typing(keys, input, procs, queue), closed, bad) == FeedAll(s, closed, bad)
        decreases |input|
      {
        ServeKeys(bad);
      }
    }

    /** The first parked reader of the keyboard gets its keys. */
    method ServeKeys(bad: set<nat>)
      requires ProcPart({}) && PipePart({}) && input != []
      modifies `procs, `queue, `parked, `input, `keys
      ensures ProcPart({}) && PipePart({}) && |input| < old(|input|)
      ensures Typing(keys, input, procs, queue) == FeedOne(old(Typing(keys, input, procs, queue)), bad)
    {
      var w := input[0];
      var k := Amount(keys, w.len);
      TypedOk(pipes, input, parked, written, taken);
      Wake(w.pid, if w.pid in bad then ERR else k, {});
      input, keys := input[1..], keys[k..];
    }

    // ---- opening ----

    /** A pipe with a descriptor for each end, in the two lowest closed ones; nothing changes when there
        are not two, or when they cannot be handed back. */
    method SysPipe(pid: nat, fault: bool)
      requires Valid() && Is(procs, pid, Running)
      modifies `procs, `queue, `fds, `files, `pipes, `nextFile, `holders, `ends, `written, `taken
      ensures Valid() && Is(procs, pid, Ready) && procs[pid].r0 in {0, ERR}
      ensures Longer(old(written), written) && Longer(old(taken), taken)
      ensures Now() == AfterPipe(old(Now()), pid, fault)
    {
      RunningNotParked(procs, queue, parked, nextPid, fds, {}, pid);
      var ok := TryPipe(pid, fault);
      MakeReady(pid, if ok then 0 else ERR, {});
    }

    method TryPipe(pid: nat, fault: bool) returns (ok: bool)
      requires ProcPart({}) && FilePart() && PipePart({}) && Is(procs, pid, Running) && pid in fds
      modifies `fds, `files, `pipes, `nextFile, `holders, `ends, `written, `taken
      ensures ProcPart({}) && FilePart() && PipePart({}) && Longer(old(written), written) && Longer(old(taken), taken)
      ensures Readied(Now(), pid, if ok then 0 else ERR) == AfterPipe(old(Now()), pid, fault)
    {
      var r, w := FreePair(pid);
      ok := w != -1 && !fault;
      if ok {
        MakePipe(pid, r, w);
      }
    }

    /** The two lowest closed descriptors. */
    method FreePair(pid: nat) returns (r: int, w: int)
      requires pid in fds
      ensures var n := LowestFrom(fds[pid], 0);
        if w == -1 then LowestFrom(fds[pid], n + 1) >= |fds[pid]|
        else r == n && w == LowestFrom(fds[pid], n + 1) < |fds[pid]| && r != w && fds[pid][r] == fds[pid][w] == 0
    {
      w := -1;
      r := FreeFd(pid, 0);
      if r != -1 { w := FreeFd(pid, r + 1); }
    }

    method MakePipe(pid: nat, r: nat, w: nat)
      requires ProcPart({}) && FilePart() && PipePart({}) && Is(procs, pid, Running)
      requires pid in fds && r < |fds[pid]| && w < |fds[pid]| && r != w && fds[pid][r] == 0 && fds[pid][w] == 0
      modifies `fds, `files, `pipes, `nextFile, `holders, `ends, `written, `taken
      ensures ProcPart({}) && FilePart() && PipePart({})
      ensures Now() == PipePlaced(old(Now()), pid, r, w)
      ensures Longer(old(written), written) && Longer(old(taken), taken)
    {
      PipeAdded(fds, files, holders, pipes, ends, nextFile, input, parked, written, taken);
      ghost var s := Now();
      var p := PlacePipe(pid, r, w);
      PlacedIs(s, Now(), pid, r, w);
      NoHistory(p);
    }

    ghost method NoHistory(p: nat)
      modifies `written, `taken
      ensures written == old(written)[p := []] && taken == old(taken)[p := []]
      ensures Now() == old(Now()).(written := written, taken := taken)
    {
      written, taken := written[p := []], taken[p := []];
    }

    method PlacePipe(pid: nat, r: nat, w: nat) returns (p: nat)
      requires ProcPart({}) && FilePart() && Is(procs, pid, Running)
      requires pid in fds && r < |fds[pid]| && w < |fds[pid]| && r != w && fds[pid][r] == 0 && fds[pid][w] == 0
      modifies `fds, `files, `pipes, `nextFile, `holders, `ends
      ensures ProcPart({}) && FilePart() && p == old(nextFile) && p !in old(pipes)
        && pipes == old(pipes)[p := Pipe([], 1, 1, [])]
      ensures fds == old(fds)[pid := SetFd(SetFd(old(fds)[pid], r, p), w, p + 1)] && nextFile == p + 2
      ensures files == old(files)[p := File(PipeEnd, true, false, 1, p)][p + 1 := File(PipeEnd, false, true, 1, p)]
      ensures Now() == old(Now()).(fds := fds, files := files, pipes := pipes, nextFile := nextFile)
    {
      p := nextFile;
      var table := SetFd(SetFd(fds[pid], r, p), w, p + 1);
      FdsProcsOk(procs, queue, parked, nextPid, fds, {}, pid, table);
      var files' := files[p := File(PipeEnd, true, false, 1, p)][p + 1 := File(PipeEnd, false, true, 1, p)];
      ghost var holders' := holders[p := {Slot(pid, r)}][p + 1 := {Slot(pid, w)}];
      var fds', pipes' := fds[pid := table], pipes[p := Pipe([], 1, 1, [])];
      ghost var ends' := ends[p := Ends(p, p + 1)];
      PipeMade(fds, files, holders, pipes, ends, p, pid, r, w, fds', files', holders', pipes', ends');
      SetFiles(fds', files', holders', pipes', ends', p + 2);
    }

    method SetFiles(fds': Fds, files': map<nat, File>, ghost holders': Holders, pipes': map<nat, Pipe>,
                    ghost ends': map<nat, Ends>, next: nat)
      modifies `fds, `files, `holders, `pipes, `ends, `nextFile
      ensures fds == fds' && files == files' && holders == holders' && pipes == pipes' && ends == ends'
        && nextFile == next
    {
      fds, files, holders, pipes, ends, nextFile := fds', files', holders', pipes', ends', next;
    }

    /** A descriptor for a file on disk, once the path has been resolved. */
    method SysOpen(pid: nat, found: bool, readable: bool, writable: bool)
      requires Valid() && Is(procs, pid, Running)
      modifies `procs, `queue, `fds, `files, `nextFile, `holders, `pipes, `ends
      ensures Valid() && Is(procs, pid, Ready)
      ensures Now() == AfterOpen(old(Now()), pid, found, readable, writable)
    {
      RunningNotParked(procs, queue, parked, nextPid, fds, {}, pid);
      var fd := FreeFd(pid, 0);
      if !found || fd == -1 {
        MakeReady(pid, ERR, {});
        return;
      }
      InstallFile(pid, fd, File(OnDisk, readable, writable, 1, 0));
      MakeReady(pid, fd, {});
    }

    method InstallFile(pid: nat, fd: nat, file: File)
      requires ProcPart({}) && FilePart() && pid in procs && procs[pid].state != Zombie && pid in fds && fd < |fds[pid]|
        && fds[pid][fd] == 0
      requires file.kind != PipeEnd && file.ref == 1
      modifies `fds, `files, `nextFile, `holders, `pipes, `ends
      ensures ProcPart({}) && FilePart() && pipes == old(pipes) && fds == WithFd(old(fds), pid, fd, old(nextFile))
        && files == old(files)[old(nextFile) := file] && nextFile == old(nextFile) + 1
      ensures Now() == Installed(old(Now()), pid, fd, file)
    {
      OpenOk(fds, files, holders, pipes, ends, nextFile, pid, fd, file);
      FdsProcsOk(procs, queue, parked, nextPid, fds, {}, pid, SetFd(fds[pid], fd, nextFile));
      SetFiles(fds[pid := SetFd(fds[pid], fd, nextFile)], files[nextFile := file],
        holders[nextFile := {Slot(pid, fd)}], pipes, ends, nextFile + 1);
    }

    /** A process started by the loader, with the console for its first three descriptors. */
    method Spawn() returns (pid: nat)
      requires Valid()
      modifies `procs, `queue, `nextPid, `fds, `files, `nextFile, `holders, `pipes, `ends
      ensures Valid() && pid == old(nextPid) && Now() == AfterSpawn(old(Now()))
    {
      ghost var s := Now();
      pid := AddProcess();
      BornIs(s, Now());
      Consoles(pid);
    }

    method Consoles(pid: nat)
      requires ProcPart({}) && FilePart() && pid in procs && procs[pid].state != Zombie && pid in fds
        && fds[pid] == seq(NFD, i => 0)
      modifies `fds, `files, `nextFile, `holders, `pipes, `ends
      ensures ProcPart({}) && FilePart() && pipes == old(pipes)
      ensures var u := Installed(old(Now()), pid, 0, File(Console, true, false, 1, 0));
        Now() == Installed(Installed(u, pid, 1, File(Console, false, true, 1, 0)), pid, 2,
            File(Console, false, true, 1, 0))
    {
      InstallFile(pid, 0, File(Console, true, false, 1, 0));
      InstallFile(pid, 1, File(Console, false, true, 1, 0));
      InstallFile(pid, 2, File(Console, false, true, 1, 0));
    }

    method AddProcess() returns (pid: nat)
      requires ProcPart({}) && FilePart()
      modifies `procs, `queue, `nextPid, `fds
      ensures ProcPart({}) && FilePart() && pid == old(nextPid) && queue == old(queue) + [pid]
      ensures pid in fds && fds == old(fds)[pid := seq(NFD, i => 0)] && nextPid == old(nextPid) + 1
      ensures procs == old(procs)[pid := Proc(Ready, 0, 0, [], 0, 0)]
      ensures Now() == Born(old(Now()))
    {
      pid := nextPid;
      var p := Proc(Ready, 0, 0, [], 0, 0);
      var t: seq<nat> := seq(NFD, i => 0);
      SpawnOk(procs, queue, parked, nextPid, fds, p, t, files, holders, pipes, ends, nextFile);
      SetProcs(procs[pid := p], queue + [pid], nextPid + 1, fds[pid := t]);
    }

    method SetProcs(procs': Procs, queue': seq<nat>, next: nat, fds': Fds)
      modifies `procs, `queue, `nextPid, `fds
      ensures procs == procs' && queue == queue' && nextPid == next && fds == fds'
    {
      procs, queue, nextPid, fds := procs', queue', next, fds';
    }

    // ---- runs ----

    method Dispatch(pid: nat, trap: Trap, bad: set<nat>)
      requires Valid() && Is(procs, pid, Running)
      modifies this
      ensures Valid()
      ensures Longer(old(written), written) && Longer(old(taken), taken)
      ensures Now() == AfterTrap(old(Now()), pid, trap, bad)
    {
      match trap {
        case Slice => MakeReady(pid, procs[pid].r0, {});
        case Result(r0) => MakeReady(pid, r0, {});
        case Exits(code) => Exit(pid, code, bad);
        case Waits(ptr) => SysWait(pid, ptr);
        case Forks => var child := Fork(pid);
        case _ => FileCall(pid, trap, bad);
      }
    }

    /** The calls that work on descriptors. */
    method FileCall(pid: nat, trap: Trap, bad: set<nat>)
      requires Valid() && Is(procs, pid, Running)
        && !(trap.Slice? || trap.Result? || trap.Exits? || trap.Waits? || trap.Forks?)
      modifies this
      ensures Valid()
      ensures Longer(old(written), written) && Longer(old(taken), taken)
      ensures Now() == AfterTrap(old(Now()), pid, trap, bad)
    {
      match trap {
        case Writes(fd, data, fault, n) => SysWrite(pid, fd, data, fault, n, bad);
        case Reads(fd, buf, len, fault, n) => SysRead(pid, fd, buf, len, fault, n);
        case Pipes(fault) => SysPipe(pid, fault);
        case Dups(fd) => SysDup(pid, fd);
        case Closes(fd) => SysClose(pid, fd, bad);
        case Opens(found, readable, writable) => SysOpen(pid, found, readable, writable);
      }
    }

    /** The promises of every reachable state. */
    ghost method Promised()
      requires Valid()
      ensures ProcsPromised(procs, queue) && PipesPromised(fds, files, pipes, written, taken)
    {
      Promises(procs, queue, parked, nextPid, fds, files, holders, pipes, ends, nextFile, input, written, taken);
    }

    /** One event: the scheduled process comes back with a trap, the keyboard is fed, or a program is loaded. */
    method Happen(e: Event)
      requires Valid()
      modifies this
      ensures Valid() && Longer(old(written), written) && Longer(old(taken), taken)
      ensures Now() == AfterEvent(old(Now()), e)
    {
      match e {
        case Trapped(trap, bad) =>
          if queue != [] {
            var pid := Schedule();
            Dispatch(pid, trap, bad);
          }
        case Typed(typed, end, bad) => Feed(typed, end, bad);
        case Loaded => var pid := Spawn();
      }
    }

    /** Whatever the processes do, whatever is typed and whenever programs are loaded, every run keeps the
        invariant and what it promises, and what pipes carried is never taken back. */
    method Run(events: seq<Event>)
      requires Valid()
      modifies this
      ensures Valid() && ProcsPromised(procs, queue) && PipesPromised(fds, files, pipes, written, taken)
      ensures Longer(old(written), written) && Longer(old(taken), taken)
      ensures Now() == AfterAll(old(Now()), events)
    {
      var i := 0;
      while i < |events|
        invariant Valid() && 0 <= i <= |events|
        invariant Longer(old(written), written) && Longer(old(taken), taken)
        invariant AfterAll(Now(), events[i..]) == AfterAll(old(Now()), events)
      {
        assert events[i..][1..] == events[i + 1..];
        Happen(events[i]);
        i := i + 1;
      }
      Promised();
    }
  }
}
