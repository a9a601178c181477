/** What every event does to the v2 kernel, as functions from state to state: one clause for each system call, with
    no loops, no bookkeeping and no invariant. */
module KernelSteps {
  import opened Bytes
  import opened Processes
  import opened OpenFiles

  const NFD := 16
  const ERR := -1

  /** A read of a pipe that is over: the bytes it took, and whether copying them to the reader faulted. */
  datatype Read = Read(bytes: seq<u8>, fault: bool)

  // ---- serving readers ----

  /** How many bytes a read of len takes. */
  function Amount(buffer: seq<u8>, len: nat): (n: nat)
    ensures n <= len && n <= |buffer| && (n == len || n == |buffer|)
  {
    if len < |buffer| then len else |buffer|
  }

  /** A pipe after its first reader has been served. */
  function Served(pipe: Pipe): Pipe
    requires pipe.waiters != []
  {
    pipe.(buffer := pipe.buffer[Amount(pipe.buffer, pipe.waiters[0].len)..], waiters := pipe.waiters[1..])
  }

  /** What the first parked reader's read comes to. */
  function FirstRead(pipe: Pipe, bad: set<nat>): Read
    requires pipe.waiters != []
  {
    var w := pipe.waiters[0];
    Read(pipe.buffer[..Amount(pipe.buffer, w.len)], w.pid in bad)
  }

  /** A pipe with its readers, the processes, the ready queue and the reads of the pipe so far. */
  datatype Service = Service(pipe: Pipe, procs: Procs, queue: seq<nat>, done: seq<Read>)

  /** The first parked reader is served. */
  function ServeOne(s: Service, bad: set<nat>): Service
    requires s.pipe.waiters != []
  {
    var read, pid := FirstRead(s.pipe, bad), s.pipe.waiters[0].pid;
    Service(Served(s.pipe), if pid in s.procs then Woke(s.procs, pid, Returns(read)) else s.procs, s.queue + [pid],
      s.done + [read])
  }

  function Woke(procs: Procs, pid: nat, r0: int): Procs
    requires pid in procs
  {
    procs[pid := procs[pid].(state := Ready, r0 := r0)]
  }

  predicate Serviceable(pipe: Pipe) { pipe.waiters != [] && (pipe.buffer != [] || pipe.writers == 0) }

  /** Parked readers are served one after the other while there is data, or all of them once no writer is left. */
  function ServeAll(s: Service, bad: set<nat>): Service
    decreases |s.pipe.waiters|
  {
    if Serviceable(s.pipe) then ServeAll(ServeOne(s, bad), bad) else s
  }

  /** The keys typed, those waiting for keys, the processes and the ready queue. */
  datatype Typing = Typing(keys: seq<u8>, input: seq<Waiter>, procs: Procs, queue: seq<nat>)

  /** The first reader of the keyboard gets as many keys as it asked for and there are; they are gone even when its
      address is bad. */
  function FeedOne(s: Typing, bad: set<nat>): Typing
    requires s.input != []
  {
    var w := s.input[0];
    var k := Amount(s.keys, w.len);
    var r0 := if w.pid in bad then ERR else k;
    Typing(s.keys[k..], s.input[1..], if w.pid in s.procs then Woke(s.procs, w.pid, r0) else s.procs,
      s.queue + [w.pid])
  }

  function FeedAll(s: Typing, closed: bool, bad: set<nat>): Typing
    decreases |s.input|
  {
    if s.input != [] && (s.keys != [] || closed) then FeedAll(FeedOne(s, bad), closed, bad) else s
  }

  /** What a read returns. */
  function Returns(read: Read): int { if read.fault then ERR else |read.bytes| }

  /** Why the running process came back to the kernel, with whatever the user program or the hardware
      decides: arguments, whether addresses translate, and which parked readers' addresses do not. */
  datatype Trap =
    | Slice
    | Result(r0: int)
    | Exits(code: int)
    | Waits(ptr: nat)
    | Forks
    | Writes(wfd: nat, data: seq<u8>, wfault: bool, wn: int)
    | Reads(rfd: nat, buf: nat, len: nat, rfault: bool, rn: int)
    | Pipes(pfault: bool)
    | Dups(dfd: nat)
    | Closes(cfd: nat)
    | Opens(found: bool, readable: bool, writable: bool)

  /** What the kernel reacts to: the running process coming back, with the parked readers whose addresses do
      not translate then; keys or the end of input; and the loader starting a program. */
  datatype Event =
    | Trapped(trap: Trap, bad: set<nat>)
    | Typed(typed: seq<u8>, end: bool, unmapped: set<nat>)
    | Loaded

  // ---- the whole state ----

  /** All a kernel holds, with what was ever written to and read from each pipe. */
  datatype Sys = Sys(procs: Procs, queue: seq<nat>, nextPid: nat, fds: Fds, files: map<nat, File>,
      pipes: map<nat, Pipe>, nextFile: nat, input: seq<Waiter>, keys: seq<u8>, closed: bool,
      written: map<nat, seq<u8>>, taken: map<nat, seq<Read>>)

  function ProcOf(s: Sys, pid: nat): Proc { if pid in s.procs then s.procs[pid] else Proc(Zombie, 0, 0, [], 0, 0) }

  function TableOf(s: Sys, pid: nat): seq<nat> { if pid in s.fds then s.fds[pid] else [] }

  function FileOf(s: Sys, f: nat): File { if f in s.files then s.files[f] else File(OnDisk, false, false, 0, 0) }

  function PipeOf(s: Sys, p: nat): Pipe { if p in s.pipes then s.pipes[p] else Pipe([], 0, 0, []) }

  function ReadsOf(s: Sys, p: nat): seq<Read> { if p in s.taken then s.taken[p] else [] }

  function WrittenOf(s: Sys, p: nat): seq<u8> { if p in s.written then s.written[p] else [] }

  /** What a descriptor refers to; 0 when it is closed. */
  function FdOf(s: Sys, pid: nat, fd: nat): nat { if fd < |TableOf(s, pid)| then TableOf(s, pid)[fd] else 0 }

  function WithEntry(s: Sys, pid: nat, fd: nat, f: nat): Sys {
    var t := TableOf(s, pid);
    s.(fds := s.fds[pid := if fd < |t| then t[fd := f] else t])
  }

  /** The lowest closed descriptor from one on, or the length of the table. */
  function LowestFrom(t: seq<nat>, fd: nat): (n: nat)
    ensures n <= |t| && (fd <= |t| ==> fd <= n) && (n < |t| ==> t[n] == 0)
    ensures forall i :: fd <= i < n ==> t[i] != 0
    decreases |t| - fd
  {
    if fd >= |t| then |t| else if t[fd] == 0 then fd else LowestFrom(t, fd + 1)
  }

  /** A process goes to the end of the queue with a result. */
  function Readied(s: Sys, pid: nat, r0: int): Sys {
    s.(procs := s.procs[pid := ProcOf(s, pid).(state := Ready, r0 := r0)], queue := s.queue + [pid])
  }

  function Blocks(s: Sys, pid: nat): Sys { s.(procs := s.procs[pid := ProcOf(s, pid).(state := Blocked)]) }

  // ---- pipes ----

  /** The readers parked on a pipe are served as far as there is something for them. */
  function Serviced(s: Sys, p: nat, bad: set<nat>): Sys {
    var t := ServeAll(Service(PipeOf(s, p), s.procs, s.queue, ReadsOf(s, p)), bad);
    s.(procs := t.procs, queue := t.queue, pipes := s.pipes[p := t.pipe], taken := s.taken[p := t.done])
  }

  /** An open descriptor is closed. With its last descriptor a file goes, and if it was an end of a pipe the pipe
      has one writer or reader less; readers learn that no writer is left. */
  function Dropped(s: Sys, pid: nat, fd: nat, bad: set<nat>): Sys {
    var f := FdOf(s, pid, fd);
    var file, u := FileOf(s, f), WithEntry(s, pid, fd, 0);
    if file.ref > 1 then u.(files := s.files[f := file.(ref := file.ref - 1)])
    else if file.kind != PipeEnd then u.(files := s.files - {f})
    else
      var p, pipe := file.pipe, PipeOf(s, file.pipe);
      if !file.writable then u.(files := s.files - {f}, pipes := s.pipes[p := pipe.(readers := pipe.readers - 1)])
      else
        var v := u.(files := s.files - {f}, pipes := s.pipes[p := pipe.(writers := pipe.writers - 1)]);
        if pipe.writers == 1 then Serviced(v, p, bad) else v
  }

  /** The descriptors from fd on are closed, in order. */
  function DroppedFrom(s: Sys, pid: nat, fd: nat, n: nat, bad: set<nat>): Sys
    decreases n - fd
  {
    if fd >= n then s
    else DroppedFrom(if FdOf(s, pid, fd) == 0 then s else Dropped(s, pid, fd, bad), pid, fd + 1, n, bad)
  }

  function AfterClose(s: Sys, pid: nat, fd: nat, bad: set<nat>): Sys {
    if FdOf(s, pid, fd) == 0 then Readied(s, pid, ERR) else Readied(Dropped(s, pid, fd, bad), pid, 0)
  }

  function AfterDup(s: Sys, pid: nat, fd: nat): Sys {
    var f, nfd := FdOf(s, pid, fd), LowestFrom(TableOf(s, pid), 0);
    if f == 0 || nfd >= |TableOf(s, pid)| then Readied(s, pid, ERR)
    else
      var u := WithEntry(s, pid, nfd, f);
      Readied(u.(files := s.files[f := FileOf(s, f).(ref := FileOf(s, f).ref + 1)]), pid, nfd)
  }

  /** A new open file in a descriptor. */
  function Installed(s: Sys, pid: nat, fd: nat, file: File): Sys {
    WithEntry(s, pid, fd, s.nextFile).(files := s.files[s.nextFile := file], nextFile := s.nextFile + 1)
  }

  function AfterOpen(s: Sys, pid: nat, found: bool, readable: bool, writable: bool): Sys {
    var fd := LowestFrom(TableOf(s, pid), 0);
    if !found || fd >= |TableOf(s, pid)| then Readied(s, pid, ERR)
    else Readied(Installed(s, pid, fd, File(OnDisk, readable, writable, 1, 0)), pid, fd)
  }

  /** A new pipe with its ends in two descriptors. */
  function PipePlaced(s: Sys, pid: nat, r: nat, w: nat): Sys {
    var p := s.nextFile;
    WithEntry(WithEntry(s, pid, r, p), pid, w, p + 1).(
        files := s.files[p := File(PipeEnd, true, false, 1, p)][p + 1 := File(PipeEnd, false, true, 1, p)],
        pipes := s.pipes[p := Pipe([], 1, 1, [])], nextFile := p + 2, written := s.written[p := []],
        taken := s.taken[p := []])
  }

  function AfterPipe(s: Sys, pid: nat, fault: bool): Sys {
    var t := TableOf(s, pid);
    var r := LowestFrom(t, 0);
    var w := LowestFrom(t, r + 1);
    if fault || w >= |t| then Readied(s, pid, ERR) else Readied(PipePlaced(s, pid, r, w), pid, 0)
  }

  // ---- reading and writing ----

  function AfterWrite(s: Sys, pid: nat, fd: nat, data: seq<u8>, fault: bool, n: int, bad: set<nat>): Sys {
    var f := FdOf(s, pid, fd);
    var file := FileOf(s, f);
    if f == 0 || !file.writable || fault then Readied(s, pid, ERR)
    else if file.kind != PipeEnd then Readied(s, pid, n)
    else
      var p, pipe := file.pipe, PipeOf(s, file.pipe);
      if pipe.readers == 0 then Readied(s, pid, ERR)
      else
        var u := s.(pipes := s.pipes[p := pipe.(buffer := pipe.buffer + data)],
            written := s.written[p := WrittenOf(s, p) + data]);
        Readied(Serviced(u, p, bad), pid, |data|)
  }

  function AfterRead(s: Sys, w: Waiter, fd: nat, fault: bool, n: int): Sys {
    var f := FdOf(s, w.pid, fd);
    var file := FileOf(s, f);
    if f == 0 || !file.readable then Readied(s, w.pid, ERR)
    else if file.kind == OnDisk then Readied(s, w.pid, if fault then ERR else n)
    else if file.kind == PipeEnd then PipeTaken(s, w, file.pipe, fault)
    else KeysTaken(s, w, fault)
  }

  /** A reader takes what there is, as far as it asked for; it waits when there is nothing and a writer is left. */
  function PipeTaken(s: Sys, w: Waiter, p: nat, fault: bool): Sys {
    var pipe := PipeOf(s, p);
    var k := Amount(pipe.buffer, w.len);
    if pipe.buffer == [] && pipe.writers != 0 then
      Blocks(s, w.pid).(pipes := s.pipes[p := pipe.(waiters := pipe.waiters + [w])])
    else
      var u := s.(pipes := s.pipes[p := pipe.(buffer := pipe.buffer[k..])],
          taken := s.taken[p := ReadsOf(s, p) + [Read(pipe.buffer[..k], fault)]]);
      Readied(u, w.pid, if fault then ERR else k)
  }

  function KeysTaken(s: Sys, w: Waiter, fault: bool): Sys {
    var k := Amount(s.keys, w.len);
    if s.keys == [] && !s.closed then Blocks(s, w.pid).(input := s.input + [w])
    else Readied(s.(keys := s.keys[k..]), w.pid, if fault then ERR else k)
  }

  function AfterTyping(s: Sys, typed: seq<u8>, end: bool, bad: set<nat>): Sys {
    var t := FeedAll(Typing(s.keys + typed, s.input, s.procs, s.queue), s.closed || end, bad);
    s.(keys := t.keys, input := t.input, procs := t.procs, queue := t.queue, closed := s.closed || end)
  }

  // ---- processes ----

  /** One more reference for each descriptor of a table below n. */
  function Shared(files: map<nat, File>, t: seq<nat>, n: nat): map<nat, File>
    requires n <= |t|
  {
    if n == 0 then files
    else
      var before := Shared(files, t, n - 1);
      var f := t[n - 1];
      if f == 0 || f !in before then before else before[f := before[f].(ref := before[f].ref + 1)]
  }

  /** The child gets the parent's descriptors and result 0, the parent the child's number; the child runs first. */
  function AfterFork(s: Sys, pid: nat): Sys {
    var t, parent := TableOf(s, pid), ProcOf(s, pid);
    var u := s.(procs := s.procs[pid := parent.(children := parent.children + [s.nextPid])]
        [s.nextPid := Proc(Ready, 0, pid, [], 0, 0)], queue := s.queue + [s.nextPid], nextPid := s.nextPid + 1,
        fds := s.fds[s.nextPid := t], files := Shared(s.files, t, |t|));
    Readied(u, pid, s.nextPid)
  }

  /** The place of the first zombie among some processes, or their number. */
  function FirstZombie(procs: Procs, pids: seq<nat>): nat {
    if pids == [] then 0 else if Is(procs, pids[0], Zombie) then 0 else 1 + FirstZombie(procs, pids[1..])
  }

  /** A process takes away its child number i. */
  function ChildTaken(s: Sys, pid: nat, i: nat): Sys {
    var p := ProcOf(s, pid);
    if i >= |p.children| then s
    else
      var c := p.children[i];
      var u := s.(procs := (s.procs - {c})[pid := p.(children := p.children[..i] + p.children[i + 1..],
            statusPtr := 0)], fds := s.fds - {c});
      Readied(u, pid, c)
  }

  function AfterWait(s: Sys, pid: nat, ptr: nat): Sys {
    var p := ProcOf(s, pid);
    var i := FirstZombie(s.procs, p.children);
    if p.children == [] then Readied(s, pid, ERR)
    else if i < |p.children| then ChildTaken(s, pid, i)
    else s.(procs := s.procs[pid := p.(state := Waiting, statusPtr := ptr)])
  }

  /** A process that waits gets its first zombie child, if it has one. */
  function Relieved(s: Sys, pid: nat): Sys {
    if Is(s.procs, pid, Waiting) then ChildTaken(s, pid, FirstZombie(s.procs, ProcOf(s, pid).children)) else s
  }

  /** The process is a zombie and its children belong to process 1, if there is one. */
  function Buried(procs: Procs, pid: nat, code: int, heir: nat): Procs {
    var kids := if pid in procs then procs[pid].children else [];
    map q | q in procs ::
      if q == pid then procs[q].(state := Zombie, exitCode := code, children := [])
      else procs[q].(parent := if q in kids then heir else procs[q].parent,
          children := if q == heir then procs[q].children + kids else procs[q].children)
  }

  function AfterExit(s: Sys, pid: nat, code: int, bad: set<nat>): Sys {
    var u := DroppedFrom(s, pid, 0, |TableOf(s, pid)|, bad);
    var heir := if 1 in u.procs && pid != 1 then 1 else 0;
    var v := u.(procs := Buried(u.procs, pid, code, heir));
    Relieved(Relieved(v, heir), ProcOf(u, pid).parent)
  }

  /** A new process with the console for its first three descriptors. */
  function AfterSpawn(s: Sys): Sys {
    var pid := s.nextPid;
    var u := s.(procs := s.procs[pid := Proc(Ready, 0, 0, [], 0, 0)], queue := s.queue + [pid], nextPid := pid + 1,
        fds := s.fds[pid := seq(NFD, _ => 0)]);
    var v := Installed(u, pid, 0, File(Console, true, false, 1, 0));
    Installed(Installed(v, pid, 1, File(Console, false, true, 1, 0)), pid, 2, File(Console, false, true, 1, 0))
  }

  // ---- runs ----

  function AfterTrap(s: Sys, pid: nat, trap: Trap, bad: set<nat>): Sys {
    match trap
    case Slice => Readied(s, pid, ProcOf(s, pid).r0)
    case Result(r0) => Readied(s, pid, r0)
    case Exits(code) => AfterExit(s, pid, code, bad)
    case Waits(ptr) => AfterWait(s, pid, ptr)
    case Forks => AfterFork(s, pid)
    case Writes(fd, data, fault, n) => AfterWrite(s, pid, fd, data, fault, n, bad)
    case Reads(fd, buf, len, fault, n) => AfterRead(s, Waiter(pid, buf, len), fd, fault, n)
    case Pipes(fault) => AfterPipe(s, pid, fault)
    case Dups(fd) => AfterDup(s, pid, fd)
    case Closes(fd) => AfterClose(s, pid, fd, bad)
    case Opens(found, readable, writable) => AfterOpen(s, pid, found, readable, writable)
  }

  function AfterEvent(s: Sys, e: Event): Sys {
    match e
    case Trapped(trap, bad) =>
      if s.queue == [] then s
      else
        var pid := s.queue[0];
        var u := s.(procs := s.procs[pid := ProcOf(s, pid).(state := Running)], queue := s.queue[1..]);
        AfterTrap(u, pid, trap, bad)
    case Typed(typed, end, bad) => AfterTyping(s, typed, end, bad)
    case Loaded => AfterSpawn(s)
  }

  function AfterAll(s: Sys, events: seq<Event>): Sys
    decreases |events|
  {
    if events == [] then s else AfterAll(AfterEvent(s, events[0]), events[1..])
  }
}
