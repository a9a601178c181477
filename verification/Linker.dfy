/** Linking objects and archives into an image. */
module Linker {
  import opened Bytes
  import opened ObjectFormat
  import opened Resolver
  import opened Placement
  import opened TextGc
  import opened TextPrune
  import opened GcProof
  import opened GcAliases
  import opened TextBlocks
  import opened LinkedImage

  datatype LinkError = Misaligned | Unloadable(why: Failure) | BadRelocation | NoEntry
  datatype LinkResult = LinkedTo(objs: seq<Object>, lay: Layout, text: seq<u8>, data: seq<u8>, symbols: map<Name, nat>,
      entry: nat) | LinkFailed(error: LinkError)

  /** Everything a link may take in is as collection takes for granted. */
  ghost predicate InputsSafe(objects: seq<Object>, archives: seq<Archive>) {
    (forall i :: 0 <= i < |objects| ==> Safe(objects[i])) && forall o :: Member(archives, o) ==> Safe(o)
  }

  lemma LoadedSafe(objects: seq<Object>, archives: seq<Archive>, loaded: seq<Object>)
    requires InputsSafe(objects, archives) && objects <= loaded && PulledInNeed(loaded, |objects|, archives)
    ensures AllSafe(loaded)
  {
    forall i | 0 <= i < |loaded| ensures Safe(loaded[i]) {
      if i < |objects| { assert loaded[i] == objects[i]; } else { assert Member(archives, loaded[i]); }
    }
  }

  /** The objects the image is made of are the loaded ones, or what collection makes of them. */
  ghost predicate Inputs(loaded: seq<Object>, objs: seq<Object>, gc: bool, entry: Name) {
    if gc then exists blocks, rens :: GcMakes(loaded, blocks, entry, objs, rens) else objs == loaded
  }

  ghost predicate GcMakes(loaded: seq<Object>, blocks: seq<seq<Block>>, entry: Name, objs: seq<Object>,
                          rens: seq<Renaming>) {
    Swept(loaded, blocks, entry, objs, rens) && (AllReady(loaded) ==> Collected(loaded, blocks, entry, objs, rens))
  }

  /**
   * Links. The image holds, in every relocation field, the address of the one definition meant plus the
   * addend, and elsewhere the bytes of the objects. With collection, objects that are as it asks lose
   * unreachable text only. A relocation fails, or a defined entry is missed, only when some object names a
   * symbol it does not have or is not as collection asks.
   */
  method LinkObjects(objects: seq<Object>, archives: seq<Archive>, origin: nat, entry: Name,
                     gc: bool) returns (r: LinkResult, ghost loaded: seq<Object>)
    requires gc ==> InputsSafe(objects, archives)
    ensures r.LinkedTo? ==>
      && origin % PAGE == 0 && r.lay.origin == origin
      && objects <= loaded && Closed(loaded) && PulledInNeed(loaded, |objects|, archives)
      && Resolution(objects, archives, Loaded(loaded)) && Inputs(loaded, r.objs, gc, entry)
      && LaidOut(r.objs, r.lay) && Tight(r.objs, r.lay) && Addresses(r.objs, r.lay, r.symbols)
      && (AllSound(r.objs) ==>
        Linked(r.objs, r.lay, r.text, r.data) && ImageOf(r.objs, origin, r.text, r.data, r.symbols))
      && entry in r.symbols && r.entry == r.symbols[entry]
    ensures r.LinkFailed? && r.error.Unloadable? ==> Resolution(objects, archives, Failed(r.error.why))
    ensures r.LinkFailed? && (r.error.BadRelocation? || r.error.NoEntry?) ==>
      Resolution(objects, archives, Loaded(loaded))
    ensures r.LinkFailed? && r.error.BadRelocation? ==> if gc then !AllReady(loaded) else !AllSound(loaded)
    ensures r.LinkFailed? && r.error.NoEntry? ==>
      Closed(loaded) && (DefinedBy(loaded, entry) ==> gc && !AllReady(loaded))
    ensures r.LinkFailed? && r.error.Misaligned? <==> origin % PAGE != 0
  {
    loaded := objects;
    if origin % PAGE != 0 {
      return LinkFailed(Misaligned), loaded;
    }
    var res := Resolve(objects, archives);
    if res.Failed? {
      return LinkFailed(Unloadable(res.why)), loaded;
    }
    loaded := res.objects;
    var inputs := res.objects;
    if gc {
      LoadedSafe(objects, archives, loaded);
      inputs := CollectedInputs(res.objects, entry);
    }
    r := MakeImage(inputs, origin, entry);
    if !gc && AllSound(loaded) { ClosedResolves(loaded); }
  }

  /** An image linked with collection is the image linked without it, under an address renaming that takes entry
      to entry. */
  lemma LinkPreserves(loaded: seq<Object>, lay: Layout, text: seq<u8>, data: seq<u8>, g: map<Name, nat>,
                      objs: seq<Object>, lay': Layout, text': seq<u8>, data': seq<u8>, g': map<Name, nat>, entry: Name)
    requires AllReady(loaded) && Closed(loaded) && LaidOut(loaded, lay) && Linked(loaded, lay, text, data)
      && Addresses(loaded, lay, g) && entry in g
    requires Inputs(loaded, objs, true, entry) && LaidOut(objs, lay') && Linked(objs, lay', text', data')
      && Addresses(objs, lay', g')
    ensures exists blocks, rens ::
      && Collected(loaded, blocks, entry, objs, rens)
      && SameProgram(loaded, lay, text, data, rens, lay', text', data')
      && EntrySame(loaded, lay, g, rens, lay', g', entry)
  {
    var blocks, rens :| GcMakes(loaded, blocks, entry, objs, rens);
    CollectionPreserves(loaded, lay, text, data, blocks, entry, objs, rens, lay', text', data');
    var j :| 0 <= j < |loaded| && Defines(loaded[j], entry);
    var l :| ExportsAt(loaded[j], l, entry);
    EntryKept(loaded, blocks, entry, objs, rens, j, l);
    AllPruned(loaded, blocks, entry, objs, rens);
    MovedAddress(loaded, lay', objs, rens, j, l);
    assert Definer(loaded, j, l, entry);
    assert EntrySame(loaded, lay, g, rens, lay', g', entry);
  }

  ghost predicate EntrySame(loaded: seq<Object>, lay: Layout, g: map<Name, nat>, rens: seq<Renaming>, lay': Layout,
                            g': map<Name, nat>, entry: Name) {
    && |rens| == |loaded| && Sized(loaded, lay') && entry in g && entry in g'
    && exists j, l ::
    Definer(loaded, j, l, entry) && g[entry] == AddressOf(loaded, lay, j, l)
    && g'[entry] == NewAddress(loaded, lay', rens, j, l)
  }

  method CollectedInputs(loaded: seq<Object>, entry: Name) returns (objs: seq<Object>)
    requires AllSafe(loaded) && Closed(loaded)
    ensures Inputs(loaded, objs, true, entry) && Unique(objs)
    ensures AllReady(loaded) ==>
      AllSound(objs) && AllResolve(objs) && (DefinedBy(loaded, entry) ==> DefinedBy(objs, entry))
  {
    ghost var blocks, rens;
    objs, blocks, rens := GcText(loaded, entry);
    assert GcMakes(loaded, blocks, entry, objs, rens);
    UniqueSwept(loaded, blocks, entry, objs, rens);
    if AllReady(loaded) {
      ResolvesKept(loaded, blocks, entry, objs, rens);
      if DefinedBy(loaded, entry) { EntryDefined(loaded, blocks, entry, objs, rens); }
    }
  }

  lemma EntryDefined(loaded: seq<Object>, blocks: seq<seq<Block>>, entry: Name, objs: seq<Object>, rens: seq<Renaming>)
    requires Collected(loaded, blocks, entry, objs, rens) && AllReady(loaded) && DefinedBy(loaded, entry)
    ensures DefinedBy(objs, entry)
  {
    var j :| 0 <= j < |loaded| && Defines(loaded[j], entry);
    var l :| ExportsAt(loaded[j], l, entry);
    EntryKept(loaded, blocks, entry, objs, rens, j, l);
    assert Defines(objs[j], entry);
  }

  method MakeImage(objs: seq<Object>, origin: nat, entry: Name) returns (r: LinkResult)
    requires Unique(objs) && origin % PAGE == 0
    ensures r.LinkedTo? ==>
      && r.objs == objs && r.lay.origin == origin && LaidOut(objs, r.lay) && Tight(objs, r.lay)
      && Addresses(objs, r.lay, r.symbols) && entry in r.symbols && r.entry == r.symbols[entry]
      && (AllSound(objs) ==>
        Linked(objs, r.lay, r.text, r.data) && ImageOf(objs, origin, r.text, r.data, r.symbols))
    ensures r.LinkFailed? ==>
      (r.error.NoEntry? && !DefinedBy(objs, entry)) || (r.error.BadRelocation? && !AllResolve(objs))
  {
    var lay := Place(objs, origin);
    RoomOf(objs, lay);
    var g := Globals(objs, lay);
    var text := Compose(objs, true, lay.text, lay.origin, lay.textEnd - lay.origin);
    var data := Compose(objs, false, lay.data, lay.dataStart, lay.dataEnd - lay.dataStart);
    var ok := Relocate(objs, lay, g, text, data);
    if !ok {
      return LinkFailed(BadRelocation);
    }
    if entry !in g {
      return LinkFailed(NoEntry);
    }
    if AllSound(objs) { LinkedIsImage(objs, lay, text[..], data[..], g); }
    r := LinkedTo(objs, lay, text[..], data[..], g, g[entry]);
  }
}
