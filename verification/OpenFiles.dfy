/** Descriptor tables, open files and pipes of the v2 kernel. */
module OpenFiles {
  import opened Bytes

  datatype Kind = Console | OnDisk | PipeEnd

  /** What a descriptor refers to; ref counts the descriptors. */
  datatype File = File(kind: Kind, readable: bool, writable: bool, ref: nat, pipe: nat)

  datatype Waiter = Waiter(pid: nat, buf: nat, len: nat)

  datatype Pipe = Pipe(buffer: seq<u8>, readers: int, writers: int, waiters: seq<Waiter>)

  datatype Ends = Ends(r: nat, w: nat)

  /** Descriptor tables by process; 0 is a closed descriptor. */
  type Fds = map<nat, seq<nat>>

  datatype Slot = Slot(pid: nat, fd: nat)

  type Holders = map<nat, set<Slot>>

  function At(fds: Fds, s: Slot): nat {
    if s.pid in fds && s.fd < |fds[s.pid]| then fds[s.pid][s.fd] else 0
  }

  // ---- the invariant ----

  /** Every open descriptor is recorded with its file, and only those. */
  ghost predicate HoldOk(fds: Fds, holders: Holders) {
    && (forall s {:trigger At(fds, s)} :: At(fds, s) != 0 ==> Holds(holders, At(fds, s), s))
    && (forall f, s {:trigger Holds(holders, f, s)} :: Holds(holders, f, s) ==> At(fds, s) == f && f != 0)
    && (forall f :: f in holders ==> holders[f] != {})
  }

  predicate Holds(holders: Holders, f: nat, s: Slot) { f in holders && s in holders[f] }

  /** An open file is counted as often as descriptors refer to it. */
  ghost predicate RefOk(files: map<nat, File>, holders: Holders) {
    files.Keys == holders.Keys && forall f :: f in files ==> files[f].ref == |holders[f]|
  }

  /** A pipe's counts say whether its ends are open. */
  ghost predicate PipeOk(files: map<nat, File>, pipes: map<nat, Pipe>, ends: map<nat, Ends>) {
    && (forall f :: f in files && files[f].kind == PipeEnd ==>
        files[f].pipe in pipes && files[f].pipe in ends && IsEnd(files[f], ends[files[f].pipe], f))
    && (forall p :: p in pipes ==> p in ends && CountsOk(files, pipes[p], ends[p], p))
  }

  predicate IsEnd(file: File, e: Ends, f: nat) {
    if file.writable then f == e.w && !file.readable else f == e.r && file.readable
  }

  predicate CountsOk(files: map<nat, File>, pipe: Pipe, e: Ends, p: nat) {
    && pipe.writers == (if e.w in files then 1 else 0)
    && pipe.readers == (if e.r in files then 1 else 0)
    && (e.w in files ==> files[e.w].kind == PipeEnd && files[e.w].pipe == p && files[e.w].writable)
    && (e.r in files ==> files[e.r].kind == PipeEnd && files[e.r].pipe == p && !files[e.r].writable)
  }

  ghost predicate IdsOk(files: map<nat, File>, pipes: map<nat, Pipe>, ends: map<nat, Ends>, next: nat) {
    && 0 < next && (forall f :: f in files ==> f < next) && (forall p :: p in pipes ==> p < next)
    && (forall p :: p in ends ==> ends[p].r < next && ends[p].w < next)
  }

  ghost predicate FilesOk(fds: Fds, files: map<nat, File>, holders: Holders, pipes: map<nat, Pipe>,
                          ends: map<nat, Ends>, next: nat) {
    HoldOk(fds, holders) && RefOk(files, holders) && PipeOk(files, pipes, ends) && IdsOk(files, pipes, ends, next)
  }

  /** A pipe has a writer exactly when some descriptor refers to its write end. */
  lemma WriterIff(fds: Fds, files: map<nat, File>, holders: Holders, pipes: map<nat, Pipe>, ends: map<nat, Ends>,
                  next: nat, p: nat)
    requires FilesOk(fds, files, holders, pipes, ends, next) && p in pipes
    ensures pipes[p].writers > 0 <==>
      exists s {:trigger At(fds, s)} ::
        At(fds, s) in files && files[At(fds, s)].kind == PipeEnd && files[At(fds, s)].pipe == p
        && files[At(fds, s)].writable
    ensures pipes[p].readers > 0 <==>
      exists s {:trigger At(fds, s)} ::
        At(fds, s) in files && files[At(fds, s)].kind == PipeEnd && files[At(fds, s)].pipe == p
        && !files[At(fds, s)].writable
  {
    var e := ends[p];
    if e.w in files { var s :| s in holders[e.w]; assert Holds(holders, e.w, s); }
    if e.r in files { var s :| s in holders[e.r]; assert Holds(holders, e.r, s); }
  }

  // ---- descriptors ----

  /** A closed descriptor is made to refer to a file. */
  lemma HoldAdded(fds: Fds, holders: Holders, s: Slot, f: nat, fds': Fds, holders': Holders)
    requires HoldOk(fds, holders) && f != 0 && At(fds, s) == 0 && At(fds', s) == f
    requires forall t :: t != s ==> At(fds', t) == At(fds, t)
    requires holders' == holders[f := (if f in holders then holders[f] else {}) + {s}]
    ensures HoldOk(fds', holders') && (f in holders ==> s !in holders[f])
  {
    assert !Holds(holders, f, s);
    forall t | At(fds', t) != 0 ensures Holds(holders', At(fds', t), t) {
      if t != s { assert Holds(holders, At(fds, t), t); }
    }
    forall g, t | Holds(holders', g, t) ensures At(fds', t) == g && g != 0 {
      if t != s { assert Holds(holders, g, t); } else if g != f { assert Holds(holders, g, t); }
    }
  }

  /** An open descriptor is closed. */
  lemma HoldDropped(fds: Fds, holders: Holders, s: Slot, f: nat, fds': Fds, holders': Holders)
    requires HoldOk(fds, holders) && At(fds, s) == f != 0 && At(fds', s) == 0
    requires forall t :: t != s ==> At(fds', t) == At(fds, t)
    requires f in holders && holders' == if holders[f] == {s} then holders - {f} else holders[f := holders[f] - {s}]
    ensures HoldOk(fds', holders') && s in holders[f]
  {
    assert Holds(holders, f, s);
    forall t | At(fds', t) != 0 ensures Holds(holders', At(fds', t), t) {
      assert Holds(holders, At(fds, t), t);
    }
    forall g, t | Holds(holders', g, t) ensures At(fds', t) == g && g != 0 {
      assert Holds(holders, g, t);
    }
    if holders[f] != {s} { var t :| t in holders[f] && t != s; assert t in holders[f] - {s}; }
  }

  /** One more descriptor for an open file. */
  lemma RefAdded(files: map<nat, File>, holders: Holders, f: nat, s: Slot)
    requires RefOk(files, holders) && f in files && s !in holders[f]
    ensures RefOk(files[f := files[f].(ref := files[f].ref + 1)], holders[f := holders[f] + {s}])
  {
  }

  /** Counts of ends do not depend on the number of descriptors. */
  lemma PipeSameEnds(files: map<nat, File>, files': map<nat, File>, pipes: map<nat, Pipe>, ends: map<nat, Ends>)
    requires PipeOk(files, pipes, ends) && files'.Keys == files.Keys
    requires forall f :: f in files ==> files'[f] == files[f].(ref := files'[f].ref)
    ensures PipeOk(files', pipes, ends)
  {
    forall p | p in pipes ensures p in ends && CountsOk(files', pipes[p], ends[p], p) {
      assert CountsOk(files, pipes[p], ends[p], p);
    }
  }

  /** Nor on what is in the pipes. */
  lemma PipeSameCounts(files: map<nat, File>, pipes: map<nat, Pipe>, pipes': map<nat, Pipe>, ends: map<nat, Ends>)
    requires PipeOk(files, pipes, ends) && pipes'.Keys == pipes.Keys
    requires forall p :: p in pipes ==> pipes'[p].readers == pipes[p].readers && pipes'[p].writers == pipes[p].writers
    ensures PipeOk(files, pipes', ends)
  {
    forall p | p in pipes' ensures p in ends && CountsOk(files, pipes'[p], ends[p], p) {
      assert CountsOk(files, pipes[p], ends[p], p);
    }
  }

  lemma Dupped(fds: Fds, files: map<nat, File>, holders: Holders, pipes: map<nat, Pipe>, ends: map<nat, Ends>,
               next: nat, s: Slot, f: nat, fds': Fds)
    requires FilesOk(fds, files, holders, pipes, ends, next) && f in files && f != 0 && At(fds, s) == 0
      && At(fds', s) == f
    requires forall t :: t != s ==> At(fds', t) == At(fds, t)
    ensures FilesOk(fds', files[f := files[f].(ref := files[f].ref + 1)], holders[f := holders[f] + {s}], pipes, ends,
        next)
  {
    HoldAdded(fds, holders, s, f, fds', holders[f := holders[f] + {s}]);
    RefAdded(files, holders, f, s);
    PipeSameEnds(files, files[f := files[f].(ref := files[f].ref + 1)], pipes, ends);
  }

  /** A descriptor for a new file that is no pipe end. */
  lemma Opened(fds: Fds, files: map<nat, File>, holders: Holders, pipes: map<nat, Pipe>, ends: map<nat, Ends>,
               next: nat, s: Slot, file: File, fds': Fds)
    requires FilesOk(fds, files, holders, pipes, ends, next) && At(fds, s) == 0 && At(fds', s) == next
    requires forall t :: t != s ==> At(fds', t) == At(fds, t)
    requires file.kind != PipeEnd && file.ref == 1
    ensures FilesOk(fds', files[next := file], holders[next := {s}], pipes, ends, next + 1)
  {
    assert next !in files && next !in holders && ({} + {s}) == {s};
    HoldAdded(fds, holders, s, next, fds', holders[next := {s}]);
    forall p | p in pipes ensures p in ends && CountsOk(files[next := file], pipes[p], ends[p], p) {
      assert CountsOk(files, pipes[p], ends[p], p);
    }
  }

  /** A descriptor goes, and its file stays open. */
  lemma ClosedOne(fds: Fds, files: map<nat, File>, holders: Holders, pipes: map<nat, Pipe>, ends: map<nat, Ends>,
                  next: nat, s: Slot, f: nat, fds': Fds)
    requires FilesOk(fds, files, holders, pipes, ends, next) && At(fds, s) == f != 0 && At(fds', s) == 0
    requires forall t :: t != s ==> At(fds', t) == At(fds, t)
    ensures f in files && s in holders[f] && files[f].ref >= 1 && (files[f].ref == 1 <==> holders[f] == {s})
    ensures files[f].ref > 1 ==>
      FilesOk(fds', files[f := files[f].(ref := files[f].ref - 1)], holders[f := holders[f] - {s}], pipes, ends, next)
  {
    assert Holds(holders, f, s);
    assert |holders[f] - {s}| == |holders[f]| - 1;
    if files[f].ref == 1 { assert holders[f] - {s} == {}; assert holders[f] == {s}; }
    if files[f].ref > 1 {
      HoldDropped(fds, holders, s, f, fds', holders[f := holders[f] - {s}]);
      PipeSameEnds(files, files[f := files[f].(ref := files[f].ref - 1)], pipes, ends);
    }
  }

  /** The counts of a pipe one of whose ends has closed. */
  function EndClosed(pipe: Pipe, writable: bool): Pipe {
    if writable then pipe.(writers := pipe.writers - 1) else pipe.(readers := pipe.readers - 1)
  }

  /** The last descriptor goes, and the file with it; a pipe end is closed. */
  lemma ClosedLast(fds: Fds, files: map<nat, File>, holders: Holders, pipes: map<nat, Pipe>, ends: map<nat, Ends>,
                   next: nat, s: Slot, f: nat, fds': Fds, pipes': map<nat, Pipe>)
    requires FilesOk(fds, files, holders, pipes, ends, next) && At(fds, s) == f != 0 && At(fds', s) == 0
    requires forall t :: t != s ==> At(fds', t) == At(fds, t)
    requires f in files && f in holders && holders[f] == {s}
    requires files[f].kind == PipeEnd ==> files[f].pipe in pipes
    requires pipes' == if files[f].kind == PipeEnd
      then pipes[files[f].pipe := EndClosed(pipes[files[f].pipe], files[f].writable)] else pipes
    ensures FilesOk(fds', files - {f}, holders - {f}, pipes', ends, next)
  {
    HoldDropped(fds, holders, s, f, fds', holders - {f});
    forall p | p in pipes' ensures p in ends && CountsOk(files - {f}, pipes'[p], ends[p], p) {
      assert CountsOk(files, pipes[p], ends[p], p);
    }
  }

  /** A new pipe with a descriptor for each end. */
  lemma Piped(fds: Fds, files: map<nat, File>, holders: Holders, pipes: map<nat, Pipe>, ends: map<nat, Ends>, next: nat,
              r: Slot, w: Slot, fds': Fds, files': map<nat, File>, holders': Holders, pipes': map<nat, Pipe>,
              ends': map<nat, Ends>)
    requires FilesOk(fds, files, holders, pipes, ends, next) && r != w && At(fds, r) == 0 && At(fds, w) == 0
    requires At(fds', r) == next && At(fds', w) == next + 1
      && forall t :: t != r && t != w ==> At(fds', t) == At(fds, t)
    requires files' == files[next := File(PipeEnd, true, false, 1, next)][next + 1 := File(PipeEnd, false, true, 1,
        next)]
    requires holders' == holders[next := {r}][next + 1 := {w}]
    requires pipes' == pipes[next := Pipe([], 1, 1, [])] && ends' == ends[next := Ends(next, next + 1)]
    ensures FilesOk(fds', files', holders', pipes', ends', next + 2)
  {
    assert next !in files && next + 1 !in files && next !in pipes;
    PipedHolds(fds, holders, next, r, w, fds', holders');
    PipedCounts(files, pipes, ends, next, files', pipes', ends');
  }

  lemma PipedHolds(fds: Fds, holders: Holders, next: nat, r: Slot, w: Slot, fds': Fds, holders': Holders)
    requires HoldOk(fds, holders) && r != w && At(fds, r) == 0 && At(fds, w) == 0 && 0 < next
    requires At(fds', r) == next && At(fds', w) == next + 1
      && forall t :: t != r && t != w ==> At(fds', t) == At(fds, t)
    requires next !in holders && next + 1 !in holders && holders' == holders[next := {r}][next + 1 := {w}]
    ensures HoldOk(fds', holders')
  {
    forall t | At(fds', t) != 0 ensures Holds(holders', At(fds', t), t) {
      if t != r && t != w { assert Holds(holders, At(fds, t), t); }
    }
    forall g, t | Holds(holders', g, t) ensures At(fds', t) == g && g != 0 {
      if g != next && g != next + 1 { assert Holds(holders, g, t); }
    }
  }

  lemma PipedCounts(files: map<nat, File>, pipes: map<nat, Pipe>, ends: map<nat, Ends>, next: nat,
                    files': map<nat, File>, pipes': map<nat, Pipe>, ends': map<nat, Ends>)
    requires PipeOk(files, pipes, ends) && IdsOk(files, pipes, ends, next)
    requires files' == files[next := File(PipeEnd, true, false, 1, next)][next + 1 := File(PipeEnd, false, true, 1,
        next)]
    requires pipes' == pipes[next := Pipe([], 1, 1, [])] && ends' == ends[next := Ends(next, next + 1)]
    ensures PipeOk(files', pipes', ends')
  {
    forall p | p in pipes' ensures p in ends' && CountsOk(files', pipes'[p], ends'[p], p) {
      if p != next { assert CountsOk(files, pipes[p], ends[p], p); }
    }
  }
}
