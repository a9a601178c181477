/** Files behind the page cache: what a file has of each of its parts, and when a change to a cached page gets there. */
module WriteBack {
  import opened FrameCounts

  type Page = seq<int>

  /** What a cache slot says of its page: which part of which file, how many of its bytes belong to the file, and
      whether they must be written back. */
  datatype Cached = Cached(fs: int, node: int, offset: int, length: int, dirty: bool)

  datatype Part = Part(fs: int, node: int, offset: int)

  function Key(c: Cached): Part { Part(c.fs, c.node, c.offset) }

  predicate SamePage(a: Cached, b: Cached): (same: bool)
    ensures same <==> Key(a) == Key(b)
  {
    a.fs == b.fs && a.node == b.node && a.offset == b.offset
  }

  /** Slots are those that point at frames, and no part of a file is in two of them. */
  ghost predicate CacheOk(held: map<Holder, int>, meta: map<int, Cached>) {
    && (forall i :: i in meta <==> Slot(i) in held) && (forall i :: i in meta ==> 0 <= i < CACHE_SIZE)
    && (forall i, j :: i in meta && j in meta && SamePage(meta[i], meta[j]) ==> i == j)
  }

  function PageOf(data: map<int, Page>, f: int): Page { if f in data then data[f] else [] }

  function Head(p: Page, n: int): Page { if 0 <= n <= |p| then p[..n] else p }

  /** The bytes of a slot that belong to its file. */
  function Image(held: map<Holder, int>, data: map<int, Page>, meta: map<int, Cached>, i: int): Page {
    if i in meta && Slot(i) in held then Head(PageOf(data, held[Slot(i)]), meta[i].length) else []
  }

  predicate FileHas(files: map<Part, Page>, k: Part, p: Page) { k in files && files[k] == p }

  predicate SameFile(files: map<Part, Page>, files': map<Part, Page>, k: Part) {
    (k in files <==> k in files') && (k in files ==> files'[k] == files[k])
  }

  predicate Stays(meta: map<int, Cached>, meta': map<int, Cached>, i: int) {
    i in meta && i in meta' && SamePage(meta[i], meta'[i])
  }

  /** The slot was to be written back and no longer is. */
  predicate Relieved(meta: map<int, Cached>, meta': map<int, Cached>, i: int) {
    i in meta && meta[i].dirty && !(Stays(meta, meta', i) && meta'[i].dirty)
  }

  ghost predicate Saves(meta: map<int, Cached>, meta': map<int, Cached>, k: Part) {
    exists i :: Relieved(meta, meta', i) && Key(meta[i]) == k
  }

  /** The files have the bytes of each slot that no longer is to be written back, and nothing else new. */
  ghost predicate WrittenBack(held: map<Holder, int>, data: map<int, Page>, meta: map<int, Cached>,
                              files: map<Part, Page>, meta': map<int, Cached>, files': map<Part, Page>) {
    && (forall i :: Relieved(meta, meta', i) ==> FileHas(files', Key(meta[i]), Image(held, data, meta, i)))
    && (forall k :: !Saves(meta, meta', k) ==> SameFile(files, files', k))
  }

  /** Slots whose page stays have its bytes; a slot with a new page has what its file has. */
  ghost predicate SlotsShow(held: map<Holder, int>, data: map<int, Page>, meta: map<int, Cached>,
                            held': map<Holder, int>, data': map<int, Page>, meta': map<int, Cached>,
                            files': map<Part, Page>) {
    && (forall i :: Stays(meta, meta', i) ==> Image(held', data', meta', i) == Image(held, data, meta, i))
    && (forall i :: i in meta' && !Stays(meta, meta', i) ==>
        FileHas(files', Key(meta'[i]), Image(held', data', meta', i)))
  }

  /** What an operation may do to files and cache: write back, drop what was written back, and read. */
  ghost predicate Carries(held: map<Holder, int>, data: map<int, Page>, meta: map<int, Cached>,
                          files: map<Part, Page>, held': map<Holder, int>, data': map<int, Page>,
                          meta': map<int, Cached>, files': map<Part, Page>) {
    && WrittenBack(held, data, meta, files, meta', files')
    && SlotsShow(held, data, meta, held', data', meta', files')
  }

  /** What is not to be written back is in the file already. */
  ghost predicate InStep(held: map<Holder, int>, data: map<int, Page>, meta: map<int, Cached>,
                         files: map<Part, Page>) {
    forall i :: i in meta && !meta[i].dirty ==> FileHas(files, Key(meta[i]), Image(held, data, meta, i))
  }

  predicate Caches(meta: map<int, Cached>, i: int, k: Part) { i in meta && Key(meta[i]) == k }

  /** The bytes a part of a file has for whoever looks: those in the cache, or else those in the file. */
  ghost function Sight(held: map<Holder, int>, data: map<int, Page>, meta: map<int, Cached>, files: map<Part, Page>,
                       k: Part): seq<Page> {
    if exists i :: Caches(meta, i, k) then (var i :| Caches(meta, i, k); [Image(held, data, meta, i)])
    else if k in files then [files[k]] else []
  }

  /** The files once a read has shown what one of them has. */
  function Learned(files: map<Part, Page>, part: Cached, content: Page, read: bool): map<Part, Page> {
    if read then files[Key(part) := Head(content, part.length)] else files
  }

  lemma SightIs(held: map<Holder, int>, data: map<int, Page>, meta: map<int, Cached>, files: map<Part, Page>, i: int)
    requires CacheOk(held, meta) && i in meta
    ensures Sight(held, data, meta, files, Key(meta[i])) == [Image(held, data, meta, i)]
  {
    assert Caches(meta, i, Key(meta[i]));
  }

  lemma NotSaved(held: map<Holder, int>, meta: map<int, Cached>, meta': map<int, Cached>, i: int)
    requires CacheOk(held, meta) && i in meta && !Relieved(meta, meta', i)
    ensures !Saves(meta, meta', Key(meta[i]))
  {
    if Saves(meta, meta', Key(meta[i])) {
      var j :| Relieved(meta, meta', j) && Key(meta[j]) == Key(meta[i]);
      assert SamePage(meta[j], meta[i]);
    }
  }

  /** Writing one slot back. */
  lemma Flushed(held: map<Holder, int>, data: map<int, Page>, meta: map<int, Cached>, files: map<Part, Page>, i: int)
    requires CacheOk(held, meta) && i in meta
    ensures var meta' := meta[i := meta[i].(dirty := false)];
      WrittenBack(held, data, meta, files, meta',
                  if meta[i].dirty then files[Key(meta[i]) := Image(held, data, meta, i)] else files)
  {
    var meta' := meta[i := meta[i].(dirty := false)];
    assert forall j :: Relieved(meta, meta', j) <==> j == i && meta[i].dirty;
    if meta[i].dirty { assert Relieved(meta, meta', i) && Saves(meta, meta', Key(meta[i])); }
  }

  /** Writing back in two steps, the second for slots that the first left to be written. */
  lemma WrittenThen(held: map<Holder, int>, data: map<int, Page>, meta0: map<int, Cached>, files0: map<Part, Page>,
                    held': map<Holder, int>, meta: map<int, Cached>, files: map<Part, Page>, meta': map<int, Cached>,
                    files': map<Part, Page>)
    requires CacheOk(held, meta0) && WrittenBack(held, data, meta0, files0, meta, files)
    requires WrittenBack(held', data, meta, files, meta', files')
    requires forall i :: Slot(i) in held ==> Slot(i) in held' && held'[Slot(i)] == held[Slot(i)]
    requires forall i :: i in meta ==> i in meta0 && (meta[i] == meta0[i] || meta[i] == meta0[i].(dirty := false))
    requires forall i :: i in meta' ==> i in meta && (meta'[i] == meta[i] || meta'[i] == meta[i].(dirty := false))
    ensures WrittenBack(held, data, meta0, files0, meta', files')
  {
    forall i | Relieved(meta0, meta', i) ensures FileHas(files', Key(meta0[i]), Image(held, data, meta0, i)) {
      if Relieved(meta0, meta, i) {
        OnceSaved(held, meta0, meta, meta', i);
        assert SameFile(files, files', Key(meta0[i]));
      } else {
        assert Relieved(meta, meta', i);
      }
    }
    forall k | !Saves(meta0, meta', k) ensures SameFile(files0, files', k) {
      SavedThen(meta0, meta, meta', k);
      assert SameFile(files0, files, k) && SameFile(files, files', k);
    }
  }

  lemma SavedThen(meta0: map<int, Cached>, meta: map<int, Cached>, meta': map<int, Cached>, k: Part)
    requires forall i :: i in meta ==> i in meta0 && (meta[i] == meta0[i] || meta[i] == meta0[i].(dirty := false))
    requires forall i :: i in meta' ==> i in meta && (meta'[i] == meta[i] || meta'[i] == meta[i].(dirty := false))
    ensures Saves(meta0, meta, k) || Saves(meta, meta', k) ==> Saves(meta0, meta', k)
  {
    if Saves(meta0, meta, k) {
      var i :| Relieved(meta0, meta, i) && Key(meta0[i]) == k;
      assert Relieved(meta0, meta', i);
    } else if Saves(meta, meta', k) {
      var i :| Relieved(meta, meta', i) && Key(meta[i]) == k;
      assert Relieved(meta0, meta', i);
    }
  }

  lemma OnceSaved(held: map<Holder, int>, meta0: map<int, Cached>, meta: map<int, Cached>, meta': map<int, Cached>,
                  i: int)
    requires CacheOk(held, meta0) && Relieved(meta0, meta, i)
    requires forall j :: j in meta ==> j in meta0 && (meta[j] == meta0[j] || meta[j] == meta0[j].(dirty := false))
    ensures !Saves(meta, meta', Key(meta0[i]))
  {
  }

  /** A slot that has been written back may go. */
  lemma WrittenGone(held: map<Holder, int>, data: map<int, Page>, meta: map<int, Cached>, files: map<Part, Page>,
                    meta': map<int, Cached>, files': map<Part, Page>, i: int)
    requires WrittenBack(held, data, meta, files, meta', files')
    requires i in meta && meta' == meta[i := meta[i].(dirty := false)]
    ensures WrittenBack(held, data, meta, files, meta' - {i}, files')
  {
    assert forall j :: Relieved(meta, meta' - {i}, j) <==> Relieved(meta, meta', j);
    forall k | Saves(meta, meta', k) ensures Saves(meta, meta' - {i}, k) {
      var j :| Relieved(meta, meta', j) && Key(meta[j]) == k;
      assert Relieved(meta, meta' - {i}, j);
    }
  }

  /** A slot dropped once written back and, when it can be read, filled with a part of a file that none had. */
  lemma Fetched(held: map<Holder, int>, data: map<int, Page>, meta: map<int, Cached>, files: map<Part, Page>,
                mid: map<int, Cached>, had: map<Part, Page>, held': map<Holder, int>, data': map<int, Page>,
                meta': map<int, Cached>, i: int, part: Cached, content: Page, read: bool)
    requires CacheOk(held, meta) && WrittenBack(held, data, meta, files, mid, had)
    requires (forall j :: j in meta ==> !SamePage(meta[j], part)) && (mid == meta || mid == meta - {i})
    requires meta' == if read then mid[i := part.(dirty := false)] else mid
    requires read ==> i !in mid && Image(held', data', meta', i) == Head(content, part.length)
    requires forall j :: j in mid ==> Image(held', data', mid, j) == Image(held, data, meta, j)
    ensures Carries(held, data, meta, Learned(files, part, content, read), held', data', meta',
                    Learned(had, part, content, read))
  {
    FetchedFiles(held, data, meta, files, mid, had, meta', i, part, content, read);
  }

  lemma FetchedFiles(held: map<Holder, int>, data: map<int, Page>, meta: map<int, Cached>, files: map<Part, Page>,
                     mid: map<int, Cached>, had: map<Part, Page>, meta': map<int, Cached>, i: int, part: Cached,
                     content: Page, read: bool)
    requires WrittenBack(held, data, meta, files, mid, had)
    requires (forall j :: j in meta ==> !SamePage(meta[j], part)) && (mid == meta || mid == meta - {i})
    requires meta' == if read then mid[i := part.(dirty := false)] else mid
    requires read ==> i !in mid
    ensures WrittenBack(held, data, meta, Learned(files, part, content, read), meta',
                        Learned(had, part, content, read))
  {
    forall j ensures Relieved(meta, meta', j) <==> Relieved(meta, mid, j) {}
    forall k | !Saves(meta, meta', k)
      ensures SameFile(Learned(files, part, content, read), Learned(had, part, content, read), k)
    {
      SavesSame(meta, mid, meta', k);
      assert SameFile(files, had, k);
    }
  }

  lemma SavesSame(meta: map<int, Cached>, mid: map<int, Cached>, meta': map<int, Cached>, k: Part)
    requires forall j :: Relieved(meta, mid, j) ==> Relieved(meta, meta', j)
    ensures Saves(meta, mid, k) ==> Saves(meta, meta', k)
  {
  }

  /** A slot that does not stay to be written back has its bytes in the file afterwards. */
  lemma Landed(held: map<Holder, int>, data: map<int, Page>, meta: map<int, Cached>, files: map<Part, Page>,
               meta': map<int, Cached>, files': map<Part, Page>, i: int)
    requires CacheOk(held, meta) && InStep(held, data, meta, files)
    requires WrittenBack(held, data, meta, files, meta', files')
    requires i in meta && !(Stays(meta, meta', i) && meta'[i].dirty && meta[i].dirty)
    ensures FileHas(files', Key(meta[i]), Image(held, data, meta, i))
  {
    if !Relieved(meta, meta', i) {
      NotSaved(held, meta, meta', i);
      assert SameFile(files, files', Key(meta[i]));
    }
  }

  /** Nothing is lost: whatever was in step stays in step, and every part of every file has the same bytes. */
  lemma NothingLost(held: map<Holder, int>, data: map<int, Page>, meta: map<int, Cached>, files: map<Part, Page>,
                    held': map<Holder, int>, data': map<int, Page>, meta': map<int, Cached>, files': map<Part, Page>,
                    k: Part)
    requires CacheOk(held, meta) && CacheOk(held', meta') && InStep(held, data, meta, files)
    requires Carries(held, data, meta, files, held', data', meta', files')
    ensures InStep(held', data', meta', files')
    ensures Sight(held', data', meta', files', k) == Sight(held, data, meta, files, k)
  {
    forall i | i in meta' && !meta'[i].dirty
      ensures FileHas(files', Key(meta'[i]), Image(held', data', meta', i))
    {
      if Stays(meta, meta', i) { Landed(held, data, meta, files, meta', files', i); }
    }
    if j :| Caches(meta, j, k) {
      SightIs(held, data, meta, files, j);
      SightCached(held, data, meta, files, held', data', meta', files', j);
    } else {
      assert !Saves(meta, meta', k) by {
        if i :| Relieved(meta, meta', i) && Key(meta[i]) == k { assert Caches(meta, i, k); }
      }
      assert SameFile(files, files', k);
      if i :| Caches(meta', i, k) {
        assert !Stays(meta, meta', i) by { if Stays(meta, meta', i) { assert Caches(meta, i, k); } }
        SightIs(held', data', meta', files', i);
      }
    }
  }

  lemma SightCached(held: map<Holder, int>, data: map<int, Page>, meta: map<int, Cached>, files: map<Part, Page>,
                    held': map<Holder, int>, data': map<int, Page>, meta': map<int, Cached>, files': map<Part, Page>,
                    j: int)
    requires CacheOk(held, meta) && CacheOk(held', meta') && InStep(held, data, meta, files) && j in meta
    requires Carries(held, data, meta, files, held', data', meta', files')
    ensures Sight(held', data', meta', files', Key(meta[j])) == [Image(held, data, meta, j)]
  {
    var k := Key(meta[j]);
    if Stays(meta, meta', j) {
      SightIs(held', data', meta', files', j);
    } else {
      Landed(held, data, meta, files, meta', files', j);
      if i :| Caches(meta', i, k) {
        if Stays(meta, meta', i) { assert SamePage(meta[i], meta[j]); }
        SightIs(held', data', meta', files', i);
      }
    }
  }
}
