/** What the indexes of a run say of objects: a push, a merge or a collection that writes an object
    into another pack restates what it is. */
module Standing {
  import opened Common
  import opened Git
  import opened ObjectIndex
  import opened World
  import opened Runs
  import opened Storage

  ghost predicate AllStand(w: World) {
    forall id :: id in w.idx ==> StandsAlone(w.idx[id])
  }

  lemma {:induction false} RunStands(content: Contents, s: seq<World>, acts: seq<Action>, i: nat)
    requires Run(content, s, acts) && s[0] == START && i < |s|
    ensures Stored(content, s[i]) && AllStand(s[i])
  {
    if i > 0 {
      RunStands(content, s, acts, i - 1);
      StepIsLater(content, s[i - 1], acts[i - 1]);
      StepStands(content, s[i - 1], acts[i - 1]);
    }
  }

  lemma StepStands(content: Contents, w: World, a: Action)
    requires Enabled(content, w, a) && AllStand(w)
    ensures AllStand(Do(content, w, a))
  {
    hide StandsAlone;
  }

  /** What the index of a repository says of an object it holds. */
  ghost function SaidOf(w: World, o: Oid): Obj
    requires o in Objects(w)
  {
    FoldHolds(w.m.packs, w.idx);
    FoldWf(w.m.packs, w.idx);
    IndexOf(w).objs[Position(IndexOf(w).oids, o).value]
  }

  /** In every run no pack is refused, and the index says of every object what its id names. */
  lemma EveryObjectIsTold(content: Contents, s: seq<World>, acts: seq<Action>, i: nat, o: Oid)
    requires Run(content, s, acts) && s[0] == START && i < |s| && o in Objects(s[i])
    ensures FoldOk(s[i].m.packs, s[i].idx)
    ensures ObjTrue(IndexOf(s[i]).oids, SaidOf(s[i], o), content(o))
  {
    hide Fold, FoldOk, Held, ObjTrue, StandsAlone, Addressed, Run;
    var w := s[i];
    RunStands(content, s, acts, i);
    AllThere(content, w);
    StandingFolds(w.m.packs, w.idx);
    FoldIsTrue(w.m.packs, w.idx, content);
    FoldHolds(w.m.packs, w.idx);
    var p := Position(IndexOf(w).oids, o).value;
    assert ObjTrue(IndexOf(w).oids, IndexOf(w).objs[p], content(IndexOf(w).oids[p]));
  }

  lemma AllThere(content: Contents, w: World)
    requires Stored(content, w) && AllStand(w)
    ensures AllAddressed(w.m.packs, w.idx, content) && AllStandAlone(w.m.packs, w.idx)
  {
  }

  /** So whatever is written in between, a collection above all, an object keeps its kind, its size
      and its time, and as many links, of which the resolved ones lead to the same objects. */
  lemma KindsStay(content: Contents, s: seq<World>, acts: seq<Action>, i: nat, j: nat, o: Oid)
    requires Run(content, s, acts) && s[0] == START && i < |s| && j < |s| && o in Objects(s[i]) && o in Objects(s[j])
    ensures var x, y := SaidOf(s[i], o), SaidOf(s[j], o);
            && x.kind == y.kind && x.size == y.size && x.time == y.time && |x.kids| == |y.kids|
            && forall k :: 0 <= k < |x.kids| && x.kids[k].Some? && y.kids[k].Some? ==>
                             && x.kids[k].value < |IndexOf(s[i]).oids| && y.kids[k].value < |IndexOf(s[j]).oids|
                             && IndexOf(s[i]).oids[x.kids[k].value] == IndexOf(s[j]).oids[y.kids[k].value]
  {
    EveryObjectIsTold(content, s, acts, i, o);
    EveryObjectIsTold(content, s, acts, j, o);
    hide Run, SaidOf, IndexOf, Objects;
  }

  // --- links ----------------------------------------------------------------------------

  ghost predicate Sound(content: Contents, w: World) {
    Stored(content, w) && AllStand(w)
  }

  /** The first pack that holds an object decides which of its links are resolved: those to objects of
      that pack and the ones before it. */
  lemma ResolvedIff(content: Contents, w: World, o: Oid) returns (n: nat)
    requires Sound(content, w) && o in Objects(w)
    ensures n < |w.m.packs| && o !in Held(w.m.packs[..n], w.idx) && o in Held(w.m.packs[..n + 1], w.idx)
    ensures |SaidOf(w, o).kids| == |content(o).names|
    ensures forall k :: 0 <= k < |content(o).names| ==> (SaidOf(w, o).kids[k].Some? <==> content(o).names[k] in Held(w.m.packs[..n + 1], w.idx))
  {
    hide Fold, FoldOk, Held, StandsAlone, Addressed, PlacedBy, KidsExact;
    var ix := IndexOf(w);
    AllThere(content, w);
    StandingFolds(w.m.packs, w.idx);
    FoldResolves(w.m.packs, w.idx, content);
    FoldPlaces(w.m.packs, w.idx);
    FoldHolds(w.m.packs, w.idx);
    var i := Position(ix.oids, o).value;
    n := ix.objs[i].pack;
    assert HasPlace(ix, i, w.m.packs, w.idx);
    var e :| PlacedBy(ix, i, w.m.packs, w.idx, e);
    PlaceIsFirst(ix, i, w.m.packs, w.idx, e);
    ExactIs(ix.objs[i].kids, content(o).names, Held(w.m.packs[..n + 1], w.idx));
  }

  lemma ExactIs(kids: seq<Option<nat>>, names: seq<Oid>, held: set<Oid>)
    requires KidsExact(kids, names, held)
    ensures |kids| == |names| && forall k :: 0 <= k < |names| ==> (kids[k].Some? <==> names[k] in held)
  {
  }

  lemma PlaceIsFirst(ix: Index, i: nat, packs: seq<PackMeta>, idx: map<PackId, seq<Entry>>, e: Entry)
    requires i < |ix.objs| == |ix.oids| && PlacedBy(ix, i, packs, idx, e)
    ensures var n := ix.objs[i].pack;
            n < |packs| && ix.oids[i] !in Held(packs[..n], idx) && ix.oids[i] in Held(packs[..n + 1], idx)
  {
    var n := ix.objs[i].pack;
    assert packs[..n + 1] == packs[..n] + [packs[n]];
    HeldJoin(packs[..n], [packs[n]], idx);
    HeldOne(packs[n], idx);
    assert e.oid in Oids(EntriesOf(idx, packs[n].id));
  }

  lemma HeldWithin(packs: seq<PackMeta>, a: nat, b: nat, idx: map<PackId, seq<Entry>>)
    requires a <= b <= |packs|
    ensures Held(packs[..a], idx) <= Held(packs[..b], idx)
  {
    assert packs[..b] == packs[..a] + packs[a..b];
    HeldJoin(packs[..a], packs[a..b], idx);
  }

  lemma CutMerged(packs: seq<PackMeta>, from: nat, count: nat, merged: PackMeta, n: nat)
    requires from + count <= |packs| && from < n <= |packs| - count + 1
    ensures var m := n - 1 + count;
            var x, y, z := packs[..from], packs[from..from + count], packs[from + count..m];
            packs[..m] == x + y + z && (packs[..from] + [merged] + packs[from + count..])[..n] == x + [merged] + z
  {
  }

  /** What the first packs hold after a merge, some of the first packs held before it. */
  lemma MergedPrefix(content: Contents, w: World, a: Action, n: nat) returns (m: nat)
    requires a.Merge? && Enabled(content, w, a) && n <= |Do(content, w, a).m.packs|
    ensures m <= |w.m.packs| && Held(Do(content, w, a).m.packs[..n], w.idx) == Held(w.m.packs[..m], w.idx)
  {
    hide Held, EntriesOf;
    var packs, after := w.m.packs, Do(content, w, a).m.packs;
    if n <= a.from {
      m := n;
      assert after[..n] == packs[..n];
    } else {
      m := n - 1 + a.count;
      var x, y, z := packs[..a.from], packs[a.from..a.from + a.count], packs[a.from + a.count..m];
      CutMerged(packs, a.from, a.count, a.merged, n);
      MergedHolds(content, w, a);
      HeldSwap(x, y, [a.merged], z, w.idx);
    }
  }

  lemma MergedHolds(content: Contents, w: World, a: Action)
    requires a.Merge? && Enabled(content, w, a)
    ensures Held(w.m.packs[a.from..a.from + a.count], w.idx) == Held([a.merged], w.idx)
  {
    HeldOne(a.merged, w.idx);
  }

  /** A merge puts the new pack where the old ones were, so no link that was resolved comes undone. */
  lemma MergeKeepsLinks(content: Contents, w: World, a: Action, o: Oid, k: nat)
    requires a.Merge? && Enabled(content, w, a) && Sound(content, w) && Sound(content, Do(content, w, a))
    requires o in Objects(w) && k < |SaidOf(w, o).kids| && SaidOf(w, o).kids[k].Some?
    ensures var v := Do(content, w, a);
            o in Objects(v) && k < |SaidOf(v, o).kids| && SaidOf(v, o).kids[k].Some?
  {
    hide Enabled, Do, SaidOf, Held, Sound;
    MergeObjects(content, w, a);
    var v := Do(content, w, a);
    var n := ResolvedIff(content, w, o);
    var n' := ResolvedIff(content, v, o);
    SameIndexes(content, w, a);
    var m := MergedPrefix(content, w, a, n' + 1);
    if m <= n {
      HeldWithin(w.m.packs, m, n, w.idx);
    } else {
      HeldWithin(w.m.packs, n + 1, m, w.idx);
    }
  }

  lemma SameIndexes(content: Contents, w: World, a: Action)
    requires a.Merge? && Enabled(content, w, a)
    ensures Do(content, w, a).idx == w.idx
  {
  }

  /** A collection leaves no link of a kept object unresolved. */
  lemma KeptAreWhole(content: Contents, w: World, a: Action, o: Oid, k: nat)
    requires a.Collect? && Enabled(content, w, a) && Sound(content, Do(content, w, a)) && o in a.plan.keep
    ensures var v := Do(content, w, a);
            o in Objects(v) && |SaidOf(v, o).kids| == |content(o).names| && (k < |content(o).names| ==> SaidOf(v, o).kids[k].Some?)
  {
    hide SaidOf, Held, Sound, Fold, Needed, Kept, Lists;
    CollectedObjects(content, w, a);
    var v := Do(content, w, a);
    var n := ResolvedIff(content, v, o);
    assert v.m.packs[..1] == [a.plan.merged];
    HeldOne(a.plan.merged, w.idx);
    HeldWithin(v.m.packs, 1, n + 1, w.idx);
    if k < |content(o).names| {
      assert content(o).names[k] in a.plan.keep;
    }
  }
}
