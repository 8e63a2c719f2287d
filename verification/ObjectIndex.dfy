/** depot/src/git/repo.rs, the object index of a repository, and depot/src/git/walk.rs,
    reachability over it. An index is a fold of `AddPack` over the packs of a manifest. */
module ObjectIndex {
  import opened Common
  import opened Git
  import opened SetSize

  type PackId = nat

  datatype PackMeta = PackMeta(id: PackId, len: nat)

  /** One object of a stored pack's index: where its bytes are and how they are stored, and what
      the object is; its links are the ids it names. */
  datatype Entry = Entry(
    oid: Oid, offset: nat, len: nat, stored: nat, kind: Kind, size: nat, base: Option<Oid>, time: int, children: seq<Oid>)

  /** One object of the repository's index: links are positions, None where the index
      holds no such object. */
  datatype Obj = Obj(
    pack: nat, offset: nat, len: nat, stored: nat, kind: Kind, size: nat, base: Option<nat>, time: int, kids: seq<Option<nat>>)

  datatype Index = Index(packs: seq<PackId>, oids: seq<Oid>, objs: seq<Obj>)

  const EMPTY := Index([], [], [])

  function Oids(entries: seq<Entry>): (r: seq<Oid>)
    ensures |r| == |entries|
    ensures forall i :: 0 <= i < |entries| ==> r[i] == entries[i].oid
  {
    seq(|entries|, i requires 0 <= i < |entries| => entries[i].oid)
  }

  function Position(oids: seq<Oid>, o: Oid): (r: Option<nat>)
    ensures r.Some? <==> o in oids
    ensures r.Some? ==> r.value < |oids| && oids[r.value] == o
  {
    if oids == [] then None
    else
      var last := |oids| - 1;
      var p := Position(oids[..last], o);
      assert oids == oids[..last] + [oids[last]];
      if p.Some? then p else if oids[last] == o then Some(last) else None
  }

  predicate Distinct(oids: seq<Oid>) {
    forall i, j :: 0 <= i < j < |oids| ==> oids[i] != oids[j]
  }

  /** The entries `AddPack` takes up: the first copy of each id not held yet. */
  function Fresh(oids: seq<Oid>, entries: seq<Entry>): (r: seq<Entry>)
    ensures forall e :: e in r ==> e in entries && e.oid !in oids
    decreases |entries|
  {
    if entries == [] then []
    else if entries[0].oid in oids then Fresh(oids, entries[1..])
    else
      var rest := Fresh(oids + [entries[0].oid], entries[1..]);
      assert forall e :: e in rest ==> e.oid !in oids;
      [entries[0]] + rest
  }

  function Linked(oids: seq<Oid>, pack: nat, e: Entry): Obj {
    Obj(pack, e.offset, e.len, e.stored, e.kind, e.size, if e.base.Some? then Position(oids, e.base.value) else None, e.time,
        seq(|e.children|, j requires 0 <= j < |e.children| => Position(oids, e.children[j])))
  }

  function Blank(pack: nat, e: Entry): Obj {
    Obj(pack, e.offset, e.len, e.stored, e.kind, e.size, None, e.time, [])
  }

  /** `add_pack` refuses an entry whose delta base the index does not hold, or is itself. */
  predicate BadBase(oids: seq<Oid>, e: Entry) {
    e.base.Some? && (e.base.value !in oids || e.base.value == e.oid)
  }

  /** The objects of a pack, the first `n` of them linked. */
  function Objs(oids: seq<Oid>, pack: nat, added: seq<Entry>, n: nat): (r: seq<Obj>)
    ensures |r| == |added|
  {
    seq(|added|, i requires 0 <= i < |added| => if i < n then Linked(oids, pack, added[i]) else Blank(pack, added[i]))
  }

  function FirstBad(oids: seq<Oid>, added: seq<Entry>): (n: nat)
    ensures n <= |added|
    ensures forall i :: 0 <= i < n ==> !BadBase(oids, added[i])
    ensures n < |added| ==> BadBase(oids, added[n])
  {
    if added == [] || BadBase(oids, added[0]) then 0
    else
      var n := FirstBad(oids, added[1..]);
      assert forall i :: 1 <= i < n + 1 ==> added[i] == added[1..][i - 1];
      n + 1
  }

  /** `Index::add_pack`: every new object is entered first, then linked in order; a bad
      delta base stops the linking there and reports failure, leaving the objects entered. */
  function AddPack(ix: Index, id: PackId, entries: seq<Entry>): (Index, bool) {
    var added := Fresh(ix.oids, entries);
    var oids := ix.oids + Oids(added);
    var n := FirstBad(oids, added);
    (Index(ix.packs + [id], oids, ix.objs + Objs(oids, |ix.packs|, added, n)), n == |added|)
  }

  function EntriesOf(idx: map<PackId, seq<Entry>>, id: PackId): seq<Entry> {
    if id in idx then idx[id] else []
  }

  /** The index of a list of packs: what `build_index` computes when nothing fails. */
  function Fold(packs: seq<PackMeta>, idx: map<PackId, seq<Entry>>): Index {
    if packs == [] then EMPTY
    else
      var last := packs[|packs| - 1];
      AddPack(Fold(packs[..|packs| - 1], idx), last.id, EntriesOf(idx, last.id)).0
  }

  /** No pack of the list was refused. */
  predicate FoldOk(packs: seq<PackMeta>, idx: map<PackId, seq<Entry>>) {
    packs != [] ==>
      var last := packs[|packs| - 1];
      FoldOk(packs[..|packs| - 1], idx) && AddPack(Fold(packs[..|packs| - 1], idx), last.id, EntriesOf(idx, last.id)).1
  }

  function Ids(packs: seq<PackMeta>): (r: seq<PackId>)
    ensures |r| == |packs|
    ensures forall i :: 0 <= i < |packs| ==> r[i] == packs[i].id
  {
    seq(|packs|, i requires 0 <= i < |packs| => packs[i].id)
  }

  ghost function IdSet(entries: seq<Entry>): (r: set<Oid>)
    ensures forall o :: o in r <==> o in Oids(entries)
  {
    set o | o in Oids(entries)
  }

  /** The ids a list of packs holds. */
  ghost function Held(packs: seq<PackMeta>, idx: map<PackId, seq<Entry>>): set<Oid> {
    if packs == [] then {}
    else Held(packs[..|packs| - 1], idx) + IdSet(EntriesOf(idx, packs[|packs| - 1].id))
  }

  lemma {:induction false} HeldIn(packs: seq<PackMeta>, idx: map<PackId, seq<Entry>>, o: Oid)
    ensures o in Held(packs, idx) <==> exists p :: p in packs && o in Oids(EntriesOf(idx, p.id))
  {
    if packs != [] {
      var init, last := packs[..|packs| - 1], packs[|packs| - 1];
      HeldIn(init, idx, o);
      assert last in packs && forall p :: p in init ==> p in packs;
      assert packs == init + [last];
    }
  }

  lemma {:induction false} HeldJoin(a: seq<PackMeta>, b: seq<PackMeta>, idx: map<PackId, seq<Entry>>)
    ensures Held(a + b, idx) == Held(a, idx) + Held(b, idx)
  {
    if b == [] {
      assert a + b == a;
    } else {
      assert (a + b)[..|a + b| - 1] == a + b[..|b| - 1];
      HeldJoin(a, b[..|b| - 1], idx);
    }
  }

  ghost predicate Wf(ix: Index) {
    && |ix.objs| == |ix.oids|
    && Distinct(ix.oids)
    && forall i, j :: 0 <= i < |ix.objs| && 0 <= j < |ix.objs[i].kids| && ix.objs[i].kids[j].Some?
                      ==> ix.objs[i].kids[j].value < |ix.objs|
  }

  // --- AddPack only appends -------------------------------------------------------------

  ghost predicate GrownFrom(old_: Index, new_: Index) {
    old_.packs <= new_.packs && old_.oids <= new_.oids && old_.objs <= new_.objs
  }

  lemma OidsCons(e: Entry, rest: seq<Entry>)
    ensures Oids([e] + rest) == [e.oid] + Oids(rest)
  {
  }

  lemma {:induction false} FreshIds(oids: seq<Oid>, entries: seq<Entry>)
    ensures forall o :: o in Oids(Fresh(oids, entries)) <==> o in Oids(entries) && o !in oids
    decreases |entries|
  {
    if entries != [] {
      var x, rest := entries[0].oid, entries[1..];
      assert entries == [entries[0]] + rest;
      OidsCons(entries[0], rest);
      if x in oids {
        FreshIds(oids, rest);
      } else {
        FreshIds(oids + [x], rest);
        OidsCons(entries[0], Fresh(oids + [x], rest));
      }
    }
  }

  lemma OneMoreDistinct(oids: seq<Oid>, x: Oid)
    requires Distinct(oids) && x !in oids
    ensures Distinct(oids + [x])
  {
  }

  lemma {:induction false} FreshDistinct(oids: seq<Oid>, entries: seq<Entry>)
    requires Distinct(oids)
    ensures Distinct(oids + Oids(Fresh(oids, entries)))
    decreases |entries|
  {
    hide Distinct;
    if entries == [] {
      assert oids + Oids(Fresh(oids, entries)) == oids;
    } else {
      var x, rest := entries[0].oid, entries[1..];
      if x in oids {
        FreshDistinct(oids, rest);
      } else {
        OneMoreDistinct(oids, x);
        FreshDistinct(oids + [x], rest);
        OidsCons(entries[0], Fresh(oids + [x], rest));
        assert oids + Oids(Fresh(oids, entries)) == (oids + [x]) + Oids(Fresh(oids + [x], rest));
      }
    }
  }

  lemma AddPackGrows(ix: Index, id: PackId, entries: seq<Entry>)
    requires Wf(ix)
    ensures var (ix', ok) := AddPack(ix, id, entries);
            && Wf(ix') && GrownFrom(ix, ix')
            && ix'.packs == ix.packs + [id]
            && (forall o :: o in ix'.oids <==> o in ix.oids || o in Oids(entries))
            && (!ok ==> |ix'.oids| > |ix.oids|)
  {
    FreshIds(ix.oids, entries);
    FreshDistinct(ix.oids, entries);
  }

  lemma {:induction false} FoldWf(packs: seq<PackMeta>, idx: map<PackId, seq<Entry>>)
    ensures Wf(Fold(packs, idx)) && Fold(packs, idx).packs == Ids(packs)
  {
    if packs != [] {
      var last, init := packs[|packs| - 1], packs[..|packs| - 1];
      FoldWf(init, idx);
      AddPackGrows(Fold(init, idx), last.id, EntriesOf(idx, last.id));
    }
  }

  lemma FoldNext(packs: seq<PackMeta>, k: nat, idx: map<PackId, seq<Entry>>)
    requires k < |packs|
    ensures var next := AddPack(Fold(packs[..k], idx), packs[k].id, EntriesOf(idx, packs[k].id));
            && Fold(packs[..k + 1], idx) == next.0
            && (FoldOk(packs[..k + 1], idx) <==> FoldOk(packs[..k], idx) && next.1)
  {
    assert packs[..k + 1][..k] == packs[..k];
  }

  /** An index holds exactly the objects its packs hold. */
  lemma {:induction false} FoldHolds(packs: seq<PackMeta>, idx: map<PackId, seq<Entry>>)
    ensures forall o :: o in Fold(packs, idx).oids <==> o in Held(packs, idx)
  {
    if packs != [] {
      var last, init := packs[|packs| - 1], packs[..|packs| - 1];
      FoldWf(init, idx);
      FoldHolds(init, idx);
      AddPackGrows(Fold(init, idx), last.id, EntriesOf(idx, last.id));
    }
  }

  /** The index of a longer list of packs extends the index of a shorter one: the same
      positions name the same objects, with the same links. */
  lemma {:induction false} FoldExtends(a: seq<PackMeta>, b: seq<PackMeta>, idx: map<PackId, seq<Entry>>)
    requires a <= b
    ensures GrownFrom(Fold(a, idx), Fold(b, idx))
    decreases |b|
  {
    if |a| < |b| {
      var last, init := b[|b| - 1], b[..|b| - 1];
      FoldExtends(a, init, idx);
      FoldWf(init, idx);
      AddPackGrows(Fold(init, idx), last.id, EntriesOf(idx, last.id));
    } else {
      assert a == b;
    }
  }

  /** Stored pack indexes never change, so new ones leave every fold alone. */
  lemma {:induction false} FoldStable(packs: seq<PackMeta>, idx: map<PackId, seq<Entry>>, more: map<PackId, seq<Entry>>)
    requires forall id :: id in idx ==> id in more && more[id] == idx[id]
    requires forall p :: p in packs ==> p.id in idx
    ensures Fold(packs, idx) == Fold(packs, more)
    ensures Held(packs, idx) == Held(packs, more)
    ensures FoldOk(packs, idx) == FoldOk(packs, more)
  {
    if packs != [] {
      assert packs[|packs| - 1] in packs;
      FoldStable(packs[..|packs| - 1], idx, more);
    }
  }

  /** Only the pack ids matter. */
  lemma {:induction false} FoldById(a: seq<PackMeta>, b: seq<PackMeta>, idx: map<PackId, seq<Entry>>)
    requires Ids(a) == Ids(b)
    ensures Fold(a, idx) == Fold(b, idx) && FoldOk(a, idx) == FoldOk(b, idx) && Held(a, idx) == Held(b, idx)
  {
    hide AddPack, EntriesOf;
    if a != [] {
      var n := |a| - 1;
      assert Ids(a)[n] == Ids(b)[n];
      assert Ids(a[..n]) == Ids(a)[..n] == Ids(b)[..n] == Ids(b[..n]);
      FoldById(a[..n], b[..n], idx);
    }
  }

  // --- content --------------------------------------------------------------------------

  /** What an object is: its kind, its size, a commit's time, and the ids it names. */
  datatype Content = Content(kind: Kind, size: nat, time: int, names: seq<Oid>)

  /** Content addressing: an id determines the object. */
  type Contents = Oid -> Content

  function ToldBy(e: Entry): Content {
    Content(e.kind, e.size, e.time, e.children)
  }

  ghost predicate Addressed(entries: seq<Entry>, content: Contents) {
    forall e :: e in entries ==> ToldBy(e) == content(e.oid)
  }

  /** Packs stand alone: a delta base is an earlier object of the same pack. */
  predicate StandsAlone(entries: seq<Entry>) {
    forall e :: e in entries && e.base.Some? ==> e.base.value in Oids(entries) && e.base.value != e.oid
  }

  ghost predicate AllAddressed(packs: seq<PackMeta>, idx: map<PackId, seq<Entry>>, content: Contents) {
    forall p :: p in packs ==> Addressed(EntriesOf(idx, p.id), content)
  }

  ghost predicate AllStandAlone(packs: seq<PackMeta>, idx: map<PackId, seq<Entry>>) {
    forall p :: p in packs ==> StandsAlone(EntriesOf(idx, p.id))
  }

  /** Every object is what its id says, and every resolved link names the right one. */
  ghost predicate TrueIndex(ix: Index, content: Contents) {
    && Wf(ix)
    && forall i :: 0 <= i < |ix.objs| ==> ObjTrue(ix.oids, ix.objs[i], content(ix.oids[i]))
  }

  ghost predicate ObjTrue(oids: seq<Oid>, obj: Obj, c: Content) {
    obj.kind == c.kind && obj.size == c.size && obj.time == c.time && KidsTrue(oids, obj.kids, c.names)
  }

  ghost predicate KidsTrue(oids: seq<Oid>, kids: seq<Option<nat>>, names: seq<Oid>) {
    && |kids| == |names|
    && forall j :: 0 <= j < |kids| && kids[j].Some? ==> kids[j].value < |oids| && oids[kids[j].value] == names[j]
  }

  lemma KidsStayTrue(oids: seq<Oid>, more: seq<Oid>, kids: seq<Option<nat>>, names: seq<Oid>)
    requires KidsTrue(oids, kids, names) && oids <= more
    ensures KidsTrue(more, kids, names)
  {
  }

  lemma FreshHaveBases(oids: seq<Oid>, entries: seq<Entry>)
    requires StandsAlone(entries)
    ensures var added := Fresh(oids, entries);
            FirstBad(oids + Oids(added), added) == |added|
  {
    var added := Fresh(oids, entries);
    FreshIds(oids, entries);
    forall k | 0 <= k < |added| ensures !BadBase(oids + Oids(added), added[k]) {
      assert added[k] in entries;
    }
  }

  /** `ix'` is `ix` with the objects of a new pack entered and linked behind those it had. */
  ghost predicate Adds(ix: Index, ix': Index, added: seq<Entry>) {
    && |ix.oids| == |ix.objs| && |ix'.oids| == |ix'.objs| == |ix.objs| + |added|
    && ix.oids <= ix'.oids
    && (forall i :: 0 <= i < |ix.objs| ==> ix'.objs[i] == ix.objs[i])
    && forall k :: 0 <= k < |added| ==>
                     ix'.oids[|ix.objs| + k] == added[k].oid
                     && ix'.objs[|ix.objs| + k] == Linked(ix'.oids, |ix.packs|, added[k])
  }

  lemma AddPackAdds(ix: Index, id: PackId, entries: seq<Entry>)
    requires Wf(ix) && AddPack(ix, id, entries).1
    ensures Adds(ix, AddPack(ix, id, entries).0, Fresh(ix.oids, entries))
  {
    hide Linked, Fresh, Distinct, Position;
  }

  lemma LinkedIsTrue(oids: seq<Oid>, pack: nat, e: Entry)
    ensures ObjTrue(oids, Linked(oids, pack, e), ToldBy(e)) && Linked(oids, pack, e).pack == pack
    ensures forall held :: (forall o :: o in held <==> o in oids) ==> KidsExact(Linked(oids, pack, e).kids, ToldBy(e).names, held)
  {
  }

  lemma AddsIsTrue(ix: Index, ix': Index, added: seq<Entry>, content: Contents)
    requires TrueIndex(ix, content) && Adds(ix, ix', added) && Wf(ix') && Addressed(added, content)
    ensures TrueIndex(ix', content)
  {
    hide Linked, Wf, KidsTrue, KidsExact;
    forall i | 0 <= i < |ix'.objs| ensures ObjTrue(ix'.oids, ix'.objs[i], content(ix'.oids[i])) {
      if i < |ix.objs| {
        KidsStayTrue(ix.oids, ix'.oids, ix.objs[i].kids, content(ix.oids[i]).names);
      } else {
        var k := i - |ix.objs|;
        assert ix'.oids[|ix.objs| + k] == added[k].oid && added[k] in added;
        assert ToldBy(added[k]) == content(added[k].oid);
        LinkedIsTrue(ix'.oids, |ix.packs|, added[k]);
      }
    }
  }

  lemma AddPackIsTrue(ix: Index, id: PackId, entries: seq<Entry>, content: Contents)
    requires TrueIndex(ix, content) && Addressed(entries, content) && AddPack(ix, id, entries).1
    ensures TrueIndex(AddPack(ix, id, entries).0, content)
  {
    hide AddPack, Fresh, KidsTrue, Adds, Distinct;
    AddPackGrows(ix, id, entries);
    AddPackAdds(ix, id, entries);
    FreshIsAddressed(ix.oids, entries, content);
    AddsIsTrue(ix, AddPack(ix, id, entries).0, Fresh(ix.oids, entries), content);
  }

  lemma {:induction false} FoldIsTrue(packs: seq<PackMeta>, idx: map<PackId, seq<Entry>>, content: Contents)
    requires FoldOk(packs, idx) && AllAddressed(packs, idx, content)
    ensures TrueIndex(Fold(packs, idx), content)
  {
    hide AddPack, TrueIndex, Addressed;
    if packs != [] {
      var last, init := packs[|packs| - 1], packs[..|packs| - 1];
      assert last in packs && forall p :: p in init ==> p in packs;
      FoldIsTrue(init, idx, content);
      AddPackIsTrue(Fold(init, idx), last.id, EntriesOf(idx, last.id), content);
    } else {
      NoLinks(content);
    }
  }

  lemma NoLinks(content: Contents)
    ensures TrueIndex(EMPTY, content)
  {
  }

  /** An object is read where the first pack that holds it says, against the base named there. */
  ghost predicate PlacedBy(ix: Index, i: nat, packs: seq<PackMeta>, idx: map<PackId, seq<Entry>>, e: Entry)
    requires i < |ix.objs| == |ix.oids|
  {
    var o := ix.objs[i];
    && o.pack < |packs| && e in EntriesOf(idx, packs[o.pack].id) && e.oid == ix.oids[i] && e.oid !in Held(packs[..o.pack], idx)
    && o.offset == e.offset && o.len == e.len && o.stored == e.stored
    && o.base.Some? == e.base.Some? && (o.base.Some? ==> o.base.value < |ix.oids| && ix.oids[o.base.value] == e.base.value)
  }

  ghost predicate HasPlace(ix: Index, i: nat, packs: seq<PackMeta>, idx: map<PackId, seq<Entry>>)
    requires i < |ix.objs| == |ix.oids|
  {
    exists e :: PlacedBy(ix, i, packs, idx, e)
  }

  ghost predicate AllPlaced(ix: Index, packs: seq<PackMeta>, idx: map<PackId, seq<Entry>>) {
    |ix.oids| == |ix.objs| && forall i :: 0 <= i < |ix.objs| ==> HasPlace(ix, i, packs, idx)
  }

  /** So it is for every object of an index no pack of which was refused. */
  lemma {:induction false} FoldPlaces(packs: seq<PackMeta>, idx: map<PackId, seq<Entry>>)
    requires FoldOk(packs, idx)
    ensures AllPlaced(Fold(packs, idx), packs, idx)
  {
    if packs != [] {
      var last, init := packs[|packs| - 1], packs[..|packs| - 1];
      hide AddPack, Adds, PlacedBy, Fresh;
      FoldPlaces(init, idx);
      FoldWf(init, idx);
      FoldHolds(init, idx);
      AddPackAdds(Fold(init, idx), last.id, EntriesOf(idx, last.id));
      AddedAreBased(Fold(init, idx), last.id, EntriesOf(idx, last.id));
      AddsPlaced(Fold(init, idx), Fold(packs, idx), Fresh(Fold(init, idx).oids, EntriesOf(idx, last.id)), packs, idx);
    }
  }

  /** The pack having been taken, every delta base it names is held. */
  lemma AddedAreBased(ix: Index, id: PackId, entries: seq<Entry>)
    requires AddPack(ix, id, entries).1
    ensures var added, oids := Fresh(ix.oids, entries), AddPack(ix, id, entries).0.oids;
            forall k :: 0 <= k < |added| ==> !BadBase(oids, added[k])
  {
    hide Fresh;
  }

  lemma AddsPlaced(ix: Index, ix': Index, added: seq<Entry>, packs: seq<PackMeta>, idx: map<PackId, seq<Entry>>)
    requires packs != [] && |ix.packs| == |packs| - 1 && AllPlaced(ix, packs[..|packs| - 1], idx)
    requires Adds(ix, ix', added) && forall o :: o in ix.oids <==> o in Held(packs[..|packs| - 1], idx)
    requires forall e :: e in added ==> e in EntriesOf(idx, packs[|packs| - 1].id) && e.oid !in ix.oids
    requires forall k :: 0 <= k < |added| ==> !BadBase(ix'.oids, added[k])
    ensures AllPlaced(ix', packs, idx)
  {
    hide Held, Linked, Adds, PlacedBy;
    AddsSizes(ix, ix', added);
    forall i | 0 <= i < |ix'.objs| ensures HasPlace(ix', i, packs, idx) {
      if i < |ix.objs| {
        assert HasPlace(ix, i, packs[..|packs| - 1], idx);
        var e :| PlacedBy(ix, i, packs[..|packs| - 1], idx, e);
        StaysPlaced(ix, ix', added, i, packs, idx, e);
      } else {
        NewIsPlaced(ix, ix', added, i - |ix.objs|, packs, idx);
      }
    }
  }

  lemma AddsSizes(ix: Index, ix': Index, added: seq<Entry>)
    requires Adds(ix, ix', added)
    ensures |ix'.oids| == |ix'.objs| == |ix.objs| + |added|
  {
  }

  lemma StaysPlaced(ix: Index, ix': Index, added: seq<Entry>, i: nat, packs: seq<PackMeta>, idx: map<PackId, seq<Entry>>, e: Entry)
    requires packs != [] && Adds(ix, ix', added) && i < |ix.objs| && PlacedBy(ix, i, packs[..|packs| - 1], idx, e)
    ensures PlacedBy(ix', i, packs, idx, e)
  {
    hide Held, Linked;
    var init := packs[..|packs| - 1];
    assert init[..ix.objs[i].pack] == packs[..ix.objs[i].pack];
  }

  lemma NewIsPlaced(ix: Index, ix': Index, added: seq<Entry>, k: nat, packs: seq<PackMeta>, idx: map<PackId, seq<Entry>>)
    requires packs != [] && |ix.packs| == |packs| - 1 && Adds(ix, ix', added) && k < |added|
    requires forall o :: o in ix.oids <==> o in Held(packs[..|packs| - 1], idx)
    requires added[k] in EntriesOf(idx, packs[|packs| - 1].id) && added[k].oid !in ix.oids && !BadBase(ix'.oids, added[k])
    ensures PlacedBy(ix', |ix.objs| + k, packs, idx, added[k])
  {
    hide Held;
    assert ix'.oids[|ix.objs| + k] == added[k].oid;
  }

  /** Which links of an object are resolved: just those to what was held once its pack was in. */
  ghost predicate KidsExact(kids: seq<Option<nat>>, names: seq<Oid>, held: set<Oid>) {
    |kids| == |names| && forall j :: 0 <= j < |kids| ==> (kids[j].Some? <==> names[j] in held)
  }

  ghost predicate LinksExact(ix: Index, packs: seq<PackMeta>, idx: map<PackId, seq<Entry>>, content: Contents) {
    && |ix.objs| == |ix.oids|
    && forall i :: 0 <= i < |ix.objs| ==>
                     ix.objs[i].pack < |packs|
                     && KidsExact(ix.objs[i].kids, content(ix.oids[i]).names, Held(packs[..ix.objs[i].pack + 1], idx))
  }

  /** A link is resolved exactly when its target comes in the same pack or an earlier one: a
      target that comes later stays unresolved. */
  lemma {:induction false} FoldResolves(packs: seq<PackMeta>, idx: map<PackId, seq<Entry>>, content: Contents)
    requires FoldOk(packs, idx) && AllAddressed(packs, idx, content)
    ensures LinksExact(Fold(packs, idx), packs, idx, content)
  {
    if packs != [] {
      var last, init := packs[|packs| - 1], packs[..|packs| - 1];
      assert last in packs && forall p :: p in init ==> p in packs;
      hide AddPack, LinksExact, Addressed, Adds;
      FoldResolves(init, idx, content);
      FoldWf(init, idx);
      AddPackAdds(Fold(init, idx), last.id, EntriesOf(idx, last.id));
      FoldHolds(packs, idx);
      FreshIsAddressed(Fold(init, idx).oids, EntriesOf(idx, last.id), content);
      AddsExact(Fold(init, idx), Fold(packs, idx), Fresh(Fold(init, idx).oids, EntriesOf(idx, last.id)), packs, idx, content);
    }
  }

  lemma FreshIsAddressed(oids: seq<Oid>, entries: seq<Entry>, content: Contents)
    requires Addressed(entries, content)
    ensures Addressed(Fresh(oids, entries), content)
  {
    hide Fresh;
  }

  lemma AddsExact(ix: Index, ix': Index, added: seq<Entry>, packs: seq<PackMeta>, idx: map<PackId, seq<Entry>>, content: Contents)
    requires packs != [] && |ix.packs| == |packs| - 1 && LinksExact(ix, packs[..|packs| - 1], idx, content)
    requires Adds(ix, ix', added) && Addressed(added, content) && forall o :: o in ix'.oids <==> o in Held(packs, idx)
    ensures LinksExact(ix', packs, idx, content)
  {
    hide Linked, Held, KidsTrue, KidsExact;
    var init := packs[..|packs| - 1];
    forall i | 0 <= i < |ix'.objs|
      ensures ix'.objs[i].pack < |packs|
      ensures KidsExact(ix'.objs[i].kids, content(ix'.oids[i]).names, Held(packs[..ix'.objs[i].pack + 1], idx))
    {
      if i < |ix.objs| {
        assert packs[..ix.objs[i].pack + 1] == init[..ix.objs[i].pack + 1];
      } else {
        var k := i - |ix.objs|;
        assert ix'.oids[|ix.objs| + k] == added[k].oid && added[k] in added;
        assert ToldBy(added[k]) == content(added[k].oid);
        LinkedIsTrue(ix'.oids, |ix.packs|, added[k]);
        assert packs[..|packs|] == packs;
      }
    }
  }

  /** A list of packs that stand alone is never refused. */
  lemma {:induction false} StandingFolds(packs: seq<PackMeta>, idx: map<PackId, seq<Entry>>)
    requires AllStandAlone(packs, idx)
    ensures FoldOk(packs, idx)
  {
    if packs != [] {
      var last, init := packs[|packs| - 1], packs[..|packs| - 1];
      assert last in packs && forall p :: p in init ==> p in packs;
      StandingFolds(init, idx);
      FreshHaveBases(Fold(init, idx).oids, EntriesOf(idx, last.id));
    }
  }

  // --- reachability ---------------------------------------------------------------------

  ghost predicate ClosedIn(ix: Index, s: set<nat>) {
    forall i :: i in s && i < |ix.objs| ==> KidsIn(ix.objs[i].kids, s)
  }

  ghost predicate KidsIn(kids: seq<Option<nat>>, s: set<nat>) {
    forall j :: 0 <= j < |kids| && kids[j].Some? ==> kids[j].value in s
  }

  /** Every object with no missing link. */
  ghost predicate Whole(ix: Index, i: nat)
    requires i < |ix.objs|
  {
    forall j :: 0 <= j < |ix.objs[i].kids| ==> ix.objs[i].kids[j].Some?
  }

  ghost function Positions(ix: Index): (r: set<nat>)
    ensures forall i :: i in r <==> 0 <= i < |ix.objs|
    ensures |r| == |ix.objs|
  {
    Range(|ix.objs|)
  }

  ghost function Range(n: nat): (r: set<nat>)
    ensures forall i :: i in r <==> 0 <= i < n
    ensures |r| == n
  {
    if n == 0 then {} else Range(n - 1) + {n - 1}
  }

  /** `s` with everything its members link to. */
  ghost function Expand(ix: Index, s: set<nat>): (r: set<nat>)
    requires Wf(ix) && s <= Positions(ix)
    ensures s <= r <= Positions(ix)
    ensures forall i :: i in s ==> KidsIn(ix.objs[i].kids, r)
  {
    s + set i, j | i in s && 0 <= j < |ix.objs[i].kids| && ix.objs[i].kids[j].Some? :: ix.objs[i].kids[j].value
  }

  /** Everything reachable from `s` along resolved links. */
  ghost function Closure(ix: Index, s: set<nat>): (r: set<nat>)
    requires Wf(ix) && s <= Positions(ix)
    ensures s <= r <= Positions(ix)
    ensures ClosedIn(ix, r)
    decreases |ix.objs| - |s|
  {
    var t := Expand(ix, s);
    SubsetSize(s, t);
    SubsetSize(t, Positions(ix));
    if t == s then s else Closure(ix, t)
  }

  lemma {:induction false} ClosureIsLeast(ix: Index, s: set<nat>, t: set<nat>)
    requires Wf(ix) && s <= Positions(ix)
    requires s <= t && ClosedIn(ix, t)
    ensures Closure(ix, s) <= t
    decreases |ix.objs| - |s|
  {
    var e := Expand(ix, s);
    SubsetSize(s, e);
    SubsetSize(e, Positions(ix));
    if e != s {
      ClosureIsLeast(ix, e, t);
    }
  }

  function Elems(s: seq<nat>): (r: set<nat>)
    ensures forall x :: x in r <==> x in s
  {
    set x | x in s
  }

  /** `walk::closure`, the marking loop, computes exactly what the tips reach. */
  method ComputeClosure(ix: Index, tips: seq<nat>) returns (b: set<nat>)
    requires Wf(ix) && forall t :: t in tips ==> t < |ix.objs|
    ensures b == Closure(ix, Elems(tips))
  {
    ghost var goal := Closure(ix, Elems(tips));
    b := {};
    var st := tips;
    while st != []
      invariant b <= goal && b <= Positions(ix)
      invariant forall t :: t in st ==> t in goal
      invariant forall t :: t in tips ==> t in b || t in st
      invariant forall i :: i in b ==> KidsIn(ix.objs[i].kids, b + Elems(st))
      decreases |ix.objs| - |b|, |st|
    {
      var x := st[|st| - 1];
      ghost var before := b + Elems(st);
      assert st == st[..|st| - 1] + [x];
      st := st[..|st| - 1];
      if x !in b {
        SubsetSize(b + {x}, Positions(ix));
        b := b + {x};
        var kids := Resolved(ix.objs[x].kids);
        st := st + kids;
        assert KidsIn(ix.objs[x].kids, goal);
      }
      assert before <= b + Elems(st);
    }
    assert KidsIn([], b);
    ClosureIsLeast(ix, Elems(tips), b);
  }

  /** The links that are not NONE. */
  function Resolved(kids: seq<Option<nat>>): (r: seq<nat>)
    ensures forall k :: k in r <==> Some(k) in kids
  {
    if kids == [] then []
    else (if kids[0].Some? then [kids[0].value] else []) + Resolved(kids[1..])
  }
}
