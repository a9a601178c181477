/** What the system calls of the v2 kernel promise their callers, as facts about the steps. */
module KernelCalls {
  import opened Bytes
  import opened Processes
  import opened OpenFiles
  import opened KernelSteps

  /** The lowest closed descriptor. */
  predicate LowestFree(t: seq<nat>, fd: int) {
    0 <= fd < |t| && t[fd] == 0 && forall i :: 0 <= i < fd ==> t[i] != 0
  }

  predicate OneFree(t: seq<nat>) { exists i :: 0 <= i < |t| && t[i] == 0 }

  predicate TwoFree(t: seq<nat>) { exists i, j :: 0 <= i < j < |t| && t[i] == 0 && t[j] == 0 }

  /** The two lowest closed descriptors. */
  predicate LowestTwo(t: seq<nat>, r: int, w: int) {
    && LowestFree(t, r) && r < w < |t| && t[w] == 0
    && forall i :: r < i < w ==> t[i] != 0
  }

  /** Every descriptor but those of one process is as it was. */
  predicate OthersFds(s: Sys, t: Sys, pid: nat) {
    s.fds.Keys == t.fds.Keys && forall q :: q in s.fds && q != pid ==> t.fds[q] == s.fds[q]
  }

  lemma ReadiedIs(s: Sys, pid: nat, r0: int)
    ensures var t := Readied(s, pid, r0);
      pid in t.procs && t.procs[pid].r0 == r0 && t.fds == s.fds && t.files == s.files && t.pipes == s.pipes
  {
  }

  lemma FreeIs(t: seq<nat>)
    ensures var n := LowestFrom(t, 0); if n < |t| then OneFree(t) && LowestFree(t, n) else !OneFree(t)
  {
  }

  lemma EntryIs(s: Sys, t: Sys, pid: nat, fd: nat, f: nat)
    requires pid in s.fds && fd < |s.fds[pid]| && t.fds == WithEntry(s, pid, fd, f).fds
    ensures OthersFds(s, t, pid) && t.fds[pid] == s.fds[pid][fd := f]
  {
  }

  /** A descriptor is duplicated into the lowest closed one, and no other changes; it fails exactly when it is
      closed or there is no closed one. */
  lemma DupMeans(s: Sys, pid: nat, fd: nat)
    requires pid in s.fds && pid in s.procs
    ensures var t, f := AfterDup(s, pid, fd), FdOf(s, pid, fd);
      pid in t.procs && var r0 := t.procs[pid].r0;
      && OthersFds(s, t, pid) && (r0 == ERR <==> f == 0 || !OneFree(s.fds[pid]))
      && (r0 == ERR ==> t == Readied(s, pid, ERR))
      && (r0 != ERR ==> LowestFree(s.fds[pid], r0) && t.fds[pid] == s.fds[pid][r0 := f])
  {
    var t, f, n := AfterDup(s, pid, fd), FdOf(s, pid, fd), LowestFrom(s.fds[pid], 0);
    FreeIs(s.fds[pid]);
    if f == 0 || n == |s.fds[pid]| { ReadiedIs(s, pid, ERR); } else {
      var u := WithEntry(s, pid, n, f).(files := s.files[f := FileOf(s, f).(ref := FileOf(s, f).ref + 1)]);
      ReadiedIs(u, pid, n);
      EntryIs(s, t, pid, n, f);
    }
  }

  /** An opened file is in the lowest closed descriptor, and no other changes. */
  lemma OpenMeans(s: Sys, pid: nat, found: bool, readable: bool, writable: bool)
    requires pid in s.fds && pid in s.procs
    ensures var t := AfterOpen(s, pid, found, readable, writable);
      pid in t.procs && var r0 := t.procs[pid].r0;
      && OthersFds(s, t, pid) && (r0 == ERR <==> !found || !OneFree(s.fds[pid]))
      && (r0 == ERR ==> t == Readied(s, pid, ERR))
      && (r0 != ERR ==> LowestFree(s.fds[pid], r0) && t.fds[pid] == s.fds[pid][r0 := s.nextFile])
      && (r0 != ERR ==> t.files == s.files[s.nextFile := File(OnDisk, readable, writable, 1, 0)])
  {
    var t, n := AfterOpen(s, pid, found, readable, writable), LowestFrom(s.fds[pid], 0);
    FreeIs(s.fds[pid]);
    if !found || n == |s.fds[pid]| { ReadiedIs(s, pid, ERR); } else {
      ReadiedIs(Installed(s, pid, n, File(OnDisk, readable, writable, 1, 0)), pid, n);
      EntryIs(s, t, pid, n, s.nextFile);
    }
  }

  /** The two lowest closed descriptors, and no others, have been made to refer to p and p + 1. */
  ghost predicate BothEnds(t: seq<nat>, t': seq<nat>, p: nat) {
    exists r, w :: EndsAt(t, t', p, r, w)
  }

  predicate EndsAt(t: seq<nat>, t': seq<nat>, p: nat, r: int, w: int) {
    LowestTwo(t, r, w) && t' == t[r := p][w := p + 1]
  }

  lemma TwoIs(t: seq<nat>)
    ensures var r := LowestFrom(t, 0);
      var w := LowestFrom(t, r + 1);
      if w < |t| then TwoFree(t) && LowestTwo(t, r, w) else !TwoFree(t)
  {
    var r := LowestFrom(t, 0);
    var w := LowestFrom(t, r + 1);
    if w < |t| {
      assert r < w && t[r] == t[w] == 0;
    } else {
      forall i, j | 0 <= i < j < |t| && t[i] == 0 ensures t[j] != 0 {
        assert r <= i;
      }
    }
  }

  lemma PlacedMeans(s: Sys, pid: nat, r: nat, w: nat)
    requires pid in s.fds && r < |s.fds[pid]| && w < |s.fds[pid]|
    ensures var t, p := PipePlaced(s, pid, r, w), s.nextFile;
      && OthersFds(s, t, pid) && t.fds[pid] == s.fds[pid][r := p][w := p + 1]
      && t.pipes == s.pipes[p := Pipe([], 1, 1, [])]
      && t.files == s.files[p := File(PipeEnd, true, false, 1, p)][p + 1 := File(PipeEnd, false, true, 1, p)]
  {
    var t, p, u := PipePlaced(s, pid, r, w), s.nextFile, WithEntry(s, pid, r, s.nextFile);
    EntryIs(s, u, pid, r, p);
    EntryIs(u, t, pid, w, p + 1);
  }

  lemma PipeGiven(s: Sys, t: Sys, pid: nat, r: nat, w: nat)
    requires pid in s.fds && LowestTwo(s.fds[pid], r, w) && t == Readied(PipePlaced(s, pid, r, w), pid, 0)
    ensures var p := s.nextFile;
      && pid in t.procs && t.procs[pid].r0 == 0 && OthersFds(s, t, pid) && BothEnds(s.fds[pid], t.fds[pid], p)
      && t.pipes == s.pipes[p := Pipe([], 1, 1, [])]
      && t.files == s.files[p := File(PipeEnd, true, false, 1, p)][p + 1 := File(PipeEnd, false, true, 1, p)]
  {
    ReadiedIs(PipePlaced(s, pid, r, w), pid, 0);
    PlacedMeans(s, pid, r, w);
    assert EndsAt(s.fds[pid], t.fds[pid], s.nextFile, r, w);
  }

  /** The ends of a new empty pipe are in the two lowest closed descriptors, and no other changes. */
  lemma PipeMeans(s: Sys, pid: nat, fault: bool)
    requires pid in s.fds && pid in s.procs
    ensures var t, p, table := AfterPipe(s, pid, fault), s.nextFile, s.fds[pid];
      pid in t.procs && var r0 := t.procs[pid].r0;
      && r0 in {0, ERR} && OthersFds(s, t, pid) && (r0 == ERR <==> fault || !TwoFree(table))
      && (r0 == ERR ==> t == Readied(s, pid, ERR))
      && (r0 == 0 ==> t.pipes == s.pipes[p := Pipe([], 1, 1, [])] && BothEnds(table, t.fds[pid], p))
      && (r0 == 0 ==>
          t.files == s.files[p := File(PipeEnd, true, false, 1, p)][p + 1 := File(PipeEnd, false, true, 1, p)])
  {
    var t, p, table := AfterPipe(s, pid, fault), s.nextFile, s.fds[pid];
    var r := LowestFrom(table, 0);
    var w := LowestFrom(table, r + 1);
    TwoIs(table);
    if fault || w == |table| { ReadiedIs(s, pid, ERR); } else {
      PipeGiven(s, t, pid, r, w);
    }
  }

  lemma ServicedFds(s: Sys, p: nat, bad: set<nat>)
    ensures Serviced(s, p, bad).fds == s.fds
  {
  }

  lemma DroppedFds(s: Sys, pid: nat, fd: nat, bad: set<nat>)
    ensures Dropped(s, pid, fd, bad).fds == WithEntry(s, pid, fd, 0).fds
  {
    var f := FdOf(s, pid, fd);
    var file, u := FileOf(s, f), WithEntry(s, pid, fd, 0);
    var p, pipe := file.pipe, PipeOf(s, file.pipe);
    ServicedFds(u.(files := s.files - {f}, pipes := s.pipes[p := pipe.(writers := pipe.writers - 1)]), p, bad);
  }

  /** Closing a descriptor leaves every other one, of any process, as it was. */
  lemma CloseMeans(s: Sys, pid: nat, fd: nat, bad: set<nat>)
    requires pid in s.fds && pid in s.procs
    ensures var t := AfterClose(s, pid, fd, bad);
      && OthersFds(s, t, pid) && pid in t.procs
      && (FdOf(s, pid, fd) == 0 ==> t == Readied(s, pid, ERR))
      && (FdOf(s, pid, fd) != 0 ==> t.procs[pid].r0 == 0 && t.fds[pid] == s.fds[pid][fd := 0])
  {
    if FdOf(s, pid, fd) == 0 { ReadiedIs(s, pid, ERR); } else {
      DroppedFds(s, pid, fd, bad);
      ReadiedIs(Dropped(s, pid, fd, bad), pid, 0);
      EntryIs(s, AfterClose(s, pid, fd, bad), pid, fd, 0);
    }
  }

  /** The child has its parent's descriptors and result 0, the parent the child's number; the child runs first. */
  lemma ForkMeans(s: Sys, pid: nat)
    requires pid in s.fds && pid in s.procs && s.nextPid !in s.procs && s.nextPid != pid
    ensures var t, child := AfterFork(s, pid), s.nextPid;
      && t.procs.Keys == s.procs.Keys + {child} && t.queue == s.queue + [child, pid]
      && Is(t.procs, pid, Ready) && Is(t.procs, child, Ready) && t.procs[pid].r0 == child && t.procs[child].r0 == 0
      && t.procs[pid].children == s.procs[pid].children + [child] && t.procs[child].parent == pid
      && t.fds == s.fds[child := s.fds[pid]]
      && forall q :: q in s.procs && q != pid ==> t.procs[q] == s.procs[q]
  {
  }

  lemma {:induction false} FirstZombieIs(procs: Procs, pids: seq<nat>)
    ensures var i := FirstZombie(procs, pids);
      && i <= |pids| && (i < |pids| ==> Is(procs, pids[i], Zombie))
      && forall j :: 0 <= j < i ==> !Is(procs, pids[j], Zombie)
  {
    if pids != [] {
      FirstZombieIs(procs, pids[1..]);
      forall j | 0 <= j < FirstZombie(procs, pids) ensures !Is(procs, pids[j], Zombie) {
        if j > 0 { assert pids[1..][j - 1] == pids[j]; }
      }
    }
  }

  /** A wait fails without children, takes the first zombie child away, or waits for one. */
  lemma WaitMeans(s: Sys, pid: nat, ptr: nat)
    requires pid in s.procs
    ensures var t, kids := AfterWait(s, pid, ptr), s.procs[pid].children;
      && (kids == [] ==> t == Readied(s, pid, ERR))
      && (kids != [] && NoZombie(s.procs, kids) ==>
        t == s.(procs := s.procs[pid := s.procs[pid].(state := Waiting, statusPtr := ptr)]))
      && (!NoZombie(s.procs, kids) ==> exists i ::
        && 0 <= i < |kids| && Is(s.procs, kids[i], Zombie) && NoZombie(s.procs, kids[..i])
        && t == ChildTaken(s, pid, i))
  {
    var kids := s.procs[pid].children;
    var i := FirstZombie(s.procs, kids);
    FirstZombieIs(s.procs, kids);
    if i < |kids| {
      assert NoZombie(s.procs, kids[..i]) && kids[i] in kids;
    }
  }
}
