/** What depot keeps in storage for one repository (depot/src/store.rs): the manifest, a
    register every server rewrites by compare-and-swap, and the immutable pack indexes. Each
    action below is one landed write, with the checks its server made against the manifest it
    replaced; a run is any interleaving of them by any number of servers. */
module World {
  import opened Common
  import opened Git
  import opened ObjectIndex

  datatype Dropped = Dropped(id: Oid, name: string, at: nat)

  datatype Retired = Retired(id: PackId, at: nat)

  datatype Manifest = Manifest(
    rev: nat, refs: map<string, Oid>, packs: seq<PackMeta>, retired: seq<Retired>, dropped: seq<Dropped>)

  /** `ver` stands for the ETag: every write gives the object a new one. */
  datatype World = World(ver: nat, m: Manifest, idx: map<PackId, seq<Entry>>)

  const NEW := Manifest(0, map[], [], [], [])

  /** `Manifest::lists`. */
  predicate Lists(m: Manifest, id: PackId) {
    (exists p :: p in m.packs && p.id == id) || (exists r :: r in m.retired && r.id == id)
  }

  /** The dropped values still inside the retention window. */
  function Kept(dropped: seq<Dropped>, cutoff: nat): (r: seq<Dropped>)
    ensures forall d :: d in r <==> d in dropped && d.at > cutoff
    ensures |r| <= |dropped|
  {
    if dropped == [] then []
    else (if dropped[0].at > cutoff then [dropped[0]] else []) + Kept(dropped[1..], cutoff)
  }

  ghost function DroppedIds(dropped: seq<Dropped>): (r: set<Oid>)
    ensures forall d :: d in dropped ==> d.id in r
    ensures forall o :: o in r ==> exists d :: d in dropped && d.id == o
  {
    set d | d in dropped :: d.id
  }

  ghost function Roots(m: Manifest): set<Oid> {
    m.refs.Values + DroppedIds(m.dropped)
  }

  /** A collection as planned: the packs it replaces, the objects it keeps, the pack it wrote. */
  datatype Plan = Plan(merged: PackMeta, sources: seq<PackMeta>, keep: set<Oid>, cutoff: nat)

  datatype Action =
    | Upload(id: PackId, entries: seq<Entry>)
    | Push(pack: Option<PackMeta>, refs: map<string, Oid>, dropped: seq<Dropped>)
    | Restore(name: string, oid: Oid)
    | Prune(cutoff: nat)
    | Collect(plan: Plan, at: nat)
    | Merge(from: nat, count: nat, merged: PackMeta, at: nat)
    | Forget(ids: set<PackId>)

  ghost function Objects(w: World): set<Oid> {
    Held(w.m.packs, w.idx)
  }

  ghost function IndexOf(w: World): Index {
    Fold(w.m.packs, w.idx)
  }

  /** The positions of the ids an index knows; unknown ids are passed over. */
  ghost function Tips(ix: Index, ids: set<Oid>): (r: set<nat>)
    requires Wf(ix)
    ensures r <= Positions(ix)
    ensures forall o :: o in ids && o in ix.oids ==> Position(ix.oids, o).value in r
    ensures forall i :: i in r ==> i < |ix.oids| && ix.oids[i] in ids
  {
    set o | o in ids && o in ix.oids :: Position(ix.oids, o).value
  }

  ghost function Names(ix: Index, s: set<nat>): (r: set<Oid>)
    requires Wf(ix) && s <= Positions(ix)
    ensures forall i :: i in s ==> ix.oids[i] in r
    ensures forall o :: o in r ==> exists i :: i in s && ix.oids[i] == o
  {
    set i | i in s :: ix.oids[i]
  }

  /** What `gc::commit` finds needed: everything the refs and the dropped values still kept
      reach in the index. */
  ghost function Needed(ix: Index, m: Manifest, cutoff: nat): (r: set<nat>)
    requires Wf(ix)
    ensures r <= Positions(ix)
  {
    Closure(ix, Tips(ix, m.refs.Values + DroppedIds(Kept(m.dropped, cutoff))))
  }

  predicate LinksWithin(content: Contents, s: set<Oid>, t: set<Oid>) {
    forall o, j :: o in s && 0 <= j < |content(o).names| ==> content(o).names[j] in t
  }

  /** `Incoming::connected`: each object a push brings links to objects it brings or the index holds. */
  ghost predicate Connected(entries: seq<Entry>, held: set<Oid>) {
    forall e, j :: e in entries && 0 <= j < |e.children| ==> e.children[j] in held || e.children[j] in Oids(entries)
  }

  ghost predicate Enabled(content: Contents, w: World, a: Action) {
    match a
    case Upload(id, entries) =>
      id !in w.idx && Addressed(entries, content) && StandsAlone(entries)
    case Push(pack, refs, dropped) =>
      var entries := if pack.Some? then EntriesOf(w.idx, pack.value.id) else [];
      && (pack.Some? ==> pack.value.id in w.idx && !Lists(w.m, pack.value.id))
      && Connected(entries, Objects(w))
      && (forall name :: name in refs ==> refs[name] in w.m.refs.Values || refs[name] in Objects(w) || refs[name] in Oids(entries))
      && (forall d :: d in dropped ==> d in w.m.dropped || d.id in w.m.refs.Values)
    case Restore(name, oid) =>
      var ix := IndexOf(w);
      && oid in ix.oids
      && (FoldWf(w.m.packs, w.idx); forall i :: i in Closure(ix, Tips(ix, {oid})) ==> Whole(ix, i))
    case Prune(cutoff) => true
    case Collect(plan, _) => CanCollect(content, w, plan)
    case Merge(from, count, merged, _) =>
      && from + count <= |w.m.packs|
      && merged.id in w.idx && !Lists(w.m, merged.id)
      && forall o :: o in Oids(w.idx[merged.id]) <==> o in Held(w.m.packs[from..from + count], w.idx)
    case Forget(_) => true
  }

  /** The checks of `gc::commit`, and what `gc::start` and the pack written guarantee. */
  ghost predicate CanCollect(content: Contents, w: World, plan: Plan) {
    var n := |plan.sources|;
    FoldWf(w.m.packs, w.idx);
    && n > 0 && plan.sources <= w.m.packs
    && plan.merged.id in w.idx && !Lists(w.m, plan.merged.id)
    && (forall o :: o in Oids(w.idx[plan.merged.id]) <==> o in plan.keep)
    && LinksWithin(content, plan.keep, plan.keep)
    && forall i :: i in Needed(IndexOf(w), w.m, plan.cutoff) && i < |Fold(plan.sources, w.idx).oids| ==>
                     IndexOf(w).oids[i] in plan.keep || IndexOf(w).oids[i] in Held(w.m.packs[n..], w.idx)
  }

  function RetireAll(packs: seq<PackMeta>, at: nat): (r: seq<Retired>)
    ensures |r| == |packs|
    ensures forall i :: 0 <= i < |packs| ==> r[i] == Retired(packs[i].id, at)
  {
    seq(|packs|, i requires 0 <= i < |packs| => Retired(packs[i].id, at))
  }

  /** `retired.retain`: the records but for those of some packs. */
  function Without(retired: seq<Retired>, ids: set<PackId>): (r: seq<Retired>)
    ensures forall x :: x in r <==> x in retired && x.id !in ids
  {
    if retired == [] then [] else (if retired[0].id in ids then [] else [retired[0]]) + Without(retired[1..], ids)
  }

  function Collected(m: Manifest, plan: Plan, at: nat): Manifest
    requires plan.sources <= m.packs
  {
    m.(packs := [plan.merged] + m.packs[|plan.sources|..],
       retired := m.retired + RetireAll(plan.sources, at),
       dropped := Kept(m.dropped, plan.cutoff))
  }

  function Written(w: World, m: Manifest): World {
    World(w.ver + 1, m.(rev := w.m.rev + 1), w.idx)
  }

  ghost function Do(content: Contents, w: World, a: Action): World
    requires Enabled(content, w, a)
  {
    match a
    case Upload(id, entries) => w.(idx := w.idx[id := entries])
    case Push(pack, refs, dropped) =>
      Written(w, w.m.(refs := refs, dropped := dropped, packs := if pack.Some? then w.m.packs + [pack.value] else w.m.packs))
    case Restore(name, oid) => Written(w, w.m.(refs := w.m.refs[name := oid]))
    case Prune(cutoff) => Written(w, w.m.(dropped := Kept(w.m.dropped, cutoff)))
    case Collect(plan, at) => Written(w, Collected(w.m, plan, at))
    case Merge(from, count, merged, at) =>
      Written(w, w.m.(packs := w.m.packs[..from] + [merged] + w.m.packs[from + count..],
                      retired := w.m.retired + RetireAll(w.m.packs[from..from + count], at)))
    case Forget(ids) => Written(w, w.m.(retired := Without(w.m.retired, ids)))
  }

  // --- what a repository must keep ------------------------------------------------------

  ghost predicate Stored(content: Contents, w: World) {
    && (forall p :: p in w.m.packs ==> p.id in w.idx)
    && (forall id :: id in w.idx ==> Addressed(w.idx[id], content))
  }

  /** Everything `o` reaches is in `held`. */
  ghost predicate Complete(content: Contents, o: Oid, held: set<Oid>) {
    exists c: set<Oid> :: o in c && c <= held && LinksWithin(content, c, c)
  }

  /** The property a git server is for: the packs hold the full closure of every ref and of
      every dropped value still listed. */
  ghost predicate Safe(content: Contents, w: World) {
    forall o :: o in Roots(w.m) ==> Complete(content, o, Objects(w))
  }

  ghost predicate Rooted(w: World) {
    Roots(w.m) <= Objects(w)
  }

  ghost predicate Closed(content: Contents, w: World) {
    LinksWithin(content, Objects(w), Objects(w))
  }

  /** The inductive invariant: stronger than `Safe`, it speaks of unreferenced objects too. */
  ghost predicate Inv(content: Contents, w: World) {
    Stored(content, w) && Rooted(w) && Closed(content, w)
  }

  lemma InvIsSafe(content: Contents, w: World)
    requires Inv(content, w)
    ensures Safe(content, w)
  {
    forall o | o in Roots(w.m) ensures Complete(content, o, Objects(w)) {
      assert o in Objects(w);
    }
  }

  /** No pack pushed since the plan links to an object the collection leaves out. A server can
      read this off the indexes of those packs before it writes. */
  ghost predicate NoLateLink(w: World, plan: Plan)
    requires plan.sources <= w.m.packs
  {
    forall p, e, j :: p in w.m.packs[|plan.sources|..] && e in EntriesOf(w.idx, p.id) && 0 <= j < |e.children| ==>
                        e.children[j] in plan.keep || e.children[j] in Held(w.m.packs[|plan.sources|..], w.idx)
  }

  // --- one write ------------------------------------------------------------------------

  lemma HeldOne(p: PackMeta, idx: map<PackId, seq<Entry>>)
    ensures Held([p], idx) == IdSet(EntriesOf(idx, p.id))
  {
    assert [p][..0] == [];
    assert Held([], idx) == {};
  }

  lemma {:induction false} HeldMore(packs: seq<PackMeta>, idx: map<PackId, seq<Entry>>, id: PackId, entries: seq<Entry>)
    requires id !in idx && forall p :: p in packs ==> p.id in idx
    ensures Held(packs, idx) == Held(packs, idx[id := entries])
  {
    if packs != [] {
      assert packs[|packs| - 1] in packs;
      HeldMore(packs[..|packs| - 1], idx, id, entries);
    }
  }

  /** The links of stored objects are those their ids name. */
  lemma EntryLinks(content: Contents, idx: map<PackId, seq<Entry>>, packs: seq<PackMeta>, o: Oid)
    returns (p: PackMeta, e: Entry)
    requires forall p :: p in packs ==> p.id in idx && Addressed(idx[p.id], content)
    requires o in Held(packs, idx)
    ensures p in packs && e in idx[p.id] && e.oid == o && e.children == content(o).names
  {
    HeldIn(packs, idx, o);
    p :| p in packs && o in Oids(EntriesOf(idx, p.id));
    var i :| 0 <= i < |idx[p.id]| && Oids(idx[p.id])[i] == o;
    e := idx[p.id][i];
  }

  lemma PushKeeps(content: Contents, w: World, a: Action)
    requires a.Push? && Enabled(content, w, a) && Inv(content, w)
    ensures Inv(content, Do(content, w, a))
  {
    var w' := Do(content, w, a);
    if a.pack.Some? {
      var entries := w.idx[a.pack.value.id];
      HeldJoin(w.m.packs, [a.pack.value], w.idx);
      HeldOne(a.pack.value, w.idx);
      forall o, j | o in Objects(w') && 0 <= j < |content(o).names| ensures content(o).names[j] in Objects(w') {
        if o !in Objects(w) {
          var _, e := EntryLinks(content, w.idx, [a.pack.value], o);
          assert e.children[j] in Objects(w) || e.children[j] in Oids(entries);
        }
      }
    }
  }

  lemma RestoreKeeps(content: Contents, w: World, a: Action)
    requires a.Restore? && Enabled(content, w, a) && Inv(content, w)
    ensures Inv(content, Do(content, w, a))
  {
    FoldHolds(w.m.packs, w.idx);
    var w' := Do(content, w, a);
    assert w'.m.refs.Values <= w.m.refs.Values + {a.oid};
  }

  lemma PruneKeeps(content: Contents, w: World, a: Action)
    requires a.Prune? && Enabled(content, w, a) && Inv(content, w)
    ensures Inv(content, Do(content, w, a))
  {
  }

  lemma MergeKeeps(content: Contents, w: World, a: Action)
    requires a.Merge? && Enabled(content, w, a) && Inv(content, w)
    ensures Inv(content, Do(content, w, a)) && Objects(Do(content, w, a)) == Objects(w)
  {
    MergeObjects(content, w, a);
    var w' := Do(content, w, a);
    assert Roots(w'.m) == Roots(w.m);
    forall p | p in w'.m.packs ensures p.id in w'.idx {
      assert p in w.m.packs || p == a.merged;
    }
  }

  lemma MergeObjects(content: Contents, w: World, a: Action)
    requires a.Merge? && Enabled(content, w, a)
    ensures Objects(Do(content, w, a)) == Objects(w)
  {
    var x, y, z := w.m.packs[..a.from], w.m.packs[a.from..a.from + a.count], w.m.packs[a.from + a.count..];
    assert w.m.packs == x + y + z;
    HeldOne(a.merged, w.idx);
    HeldSwap(x, y, [a.merged], z, w.idx);
  }

  lemma HeldSwap(x: seq<PackMeta>, y: seq<PackMeta>, y': seq<PackMeta>, z: seq<PackMeta>, idx: map<PackId, seq<Entry>>)
    requires Held(y, idx) == Held(y', idx)
    ensures Held(x + y + z, idx) == Held(x + y' + z, idx)
  {
    HeldJoin(x + y, z, idx);
    HeldJoin(x, y, idx);
    HeldJoin(x + y', z, idx);
    HeldJoin(x, y', idx);
  }

  /** What the swap leaves: the kept objects and those of the packs pushed meanwhile. */
  lemma CollectedObjects(content: Contents, w: World, a: Action)
    requires a.Collect? && Enabled(content, w, a)
    ensures Objects(Do(content, w, a)) == a.plan.keep + Held(w.m.packs[|a.plan.sources|..], w.idx)
    ensures Objects(w) == Held(a.plan.sources, w.idx) + Held(w.m.packs[|a.plan.sources|..], w.idx)
  {
    hide Fold, Needed, LinksWithin, Held, Kept;
    HeldInstead(w.m.packs, a.plan.sources, a.plan.merged, a.plan.keep, w.idx);
  }

  lemma HeldInstead(packs: seq<PackMeta>, old_: seq<PackMeta>, new_: PackMeta, keep: set<Oid>, idx: map<PackId, seq<Entry>>)
    requires old_ <= packs && new_.id in idx && forall o :: o in Oids(idx[new_.id]) <==> o in keep
    ensures Held([new_] + packs[|old_|..], idx) == keep + Held(packs[|old_|..], idx)
    ensures Held(packs, idx) == Held(old_, idx) + Held(packs[|old_|..], idx)
  {
    var later := packs[|old_|..];
    HeldJoin([new_], later, idx);
    HeldOne(new_, idx);
    assert packs == old_ + later;
    HeldJoin(old_, later, idx);
    hide Held;
    assert IdSet(idx[new_.id]) == keep;
  }

  /** A position past the index of the first `n` packs names an object of a later pack. */
  lemma LatePosition(packs: seq<PackMeta>, n: nat, idx: map<PackId, seq<Entry>>, i: nat)
    requires n <= |packs|
    requires |Fold(packs[..n], idx).oids| <= i < |Fold(packs, idx).oids|
    ensures Fold(packs, idx).oids[i] in Held(packs[n..], idx)
  {
    hide Fold, Held, Position, Wf;
    var ix, early, o := Fold(packs, idx), Fold(packs[..n], idx), Fold(packs, idx).oids[i];
    FoldExtends(packs[..n], packs, idx);
    assert o !in early.oids by {
      FoldWf(packs, idx);
      DistinctPast(ix, |early.oids|, i);
      assert early.oids == ix.oids[..|early.oids|];
    }
    FoldHolds(packs, idx);
    FoldHolds(packs[..n], idx);
    assert o in Held(packs, idx) && o !in Held(packs[..n], idx) by { assert o in ix.oids; }
    assert packs == packs[..n] + packs[n..];
    HeldJoin(packs[..n], packs[n..], idx);
  }

  lemma DistinctPast(ix: Index, n: nat, i: nat)
    requires Wf(ix) && n <= i < |ix.oids|
    ensures ix.oids[i] !in ix.oids[..n]
  {
  }

  /** The check of `gc::commit`: everything needed is in the new pack or in a later one. */
  lemma NeededSurvives(content: Contents, w: World, a: Action, i: nat)
    requires a.Collect? && Enabled(content, w, a)
    requires Wf(IndexOf(w)) && i in Needed(IndexOf(w), w.m, a.plan.cutoff)
    ensures i < |IndexOf(w).oids| && IndexOf(w).oids[i] in Objects(Do(content, w, a))
  {
    CollectedObjects(content, w, a);
    assert a.plan.sources == w.m.packs[..|a.plan.sources|];
    if i >= |Fold(a.plan.sources, w.idx).oids| {
      LatePosition(w.m.packs, |a.plan.sources|, w.idx, i);
    }
  }

  /** A collection keeps every root's object, whatever was pushed meanwhile. */
  lemma CollectKeepsRoots(content: Contents, w: World, a: Action)
    requires a.Collect? && Enabled(content, w, a) && Rooted(w)
    ensures Rooted(Do(content, w, a))
  {
    var ix, w' := IndexOf(w), Do(content, w, a);
    FoldWf(w.m.packs, w.idx);
    FoldHolds(w.m.packs, w.idx);
    var ids := w.m.refs.Values + DroppedIds(Kept(w.m.dropped, a.plan.cutoff));
    forall o | o in Roots(w'.m) ensures o in Objects(w') {
      assert o in ids;
      assert o in Roots(w.m);
      NeededSurvives(content, w, a, Position(ix.oids, o).value);
    }
  }

  /** A collection by itself never loses anything a root reaches: with no link missing from
      the index, the closure it checks is the true one. */
  lemma CollectIsSafe(content: Contents, w: World, a: Action)
    requires a.Collect? && Enabled(content, w, a) && Stored(content, w) && Rooted(w)
    requires FoldOk(w.m.packs, w.idx)
    requires forall i :: 0 <= i < |IndexOf(w).objs| ==> Whole(IndexOf(w), i)
    ensures Safe(content, Do(content, w, a))
  {
    var ix, w' := IndexOf(w), Do(content, w, a);
    FoldIsTrue(w.m.packs, w.idx, content);
    FoldHolds(w.m.packs, w.idx);
    var need := Needed(ix, w.m, a.plan.cutoff);
    var c := Names(ix, need);
    forall o | o in c ensures o in Objects(w') {
      var i :| i in need && ix.oids[i] == o;
      NeededSurvives(content, w, a, i);
    }
    NamesClosed(content, ix, need);
    var ids := w.m.refs.Values + DroppedIds(Kept(w.m.dropped, a.plan.cutoff));
    forall o | o in Roots(w'.m) ensures Complete(content, o, Objects(w')) {
      assert o in ids && o in Roots(w.m);
      assert Position(ix.oids, o).value in need;
      assert o in c;
    }
  }

  /** Where no link is missing, a set of positions closed in the index names a set of
      objects closed under their true links. */
  lemma NamesClosed(content: Contents, ix: Index, s: set<nat>)
    requires TrueIndex(ix, content) && s <= Positions(ix) && ClosedIn(ix, s)
    requires forall i :: i in s ==> Whole(ix, i)
    ensures LinksWithin(content, Names(ix, s), Names(ix, s))
  {
    var c := Names(ix, s);
    forall o, j | o in c && 0 <= j < |content(o).names| ensures content(o).names[j] in c {
      var i :| i in s && ix.oids[i] == o;
      assert KidsTrue(ix.oids, ix.objs[i].kids, content(o).names);
      assert Whole(ix, i) && KidsIn(ix.objs[i].kids, s);
      assert ix.objs[i].kids[j].Some?;
    }
  }

  /** Exactly when a collection keeps the packs closed under links. */
  lemma CollectKeepsClosedIff(content: Contents, w: World, a: Action)
    requires a.Collect? && Enabled(content, w, a) && Stored(content, w)
    ensures Closed(content, Do(content, w, a)) <==> NoLateLink(w, a.plan)
  {
    hide Fold, Needed, Held, Kept;
    var w', later := Do(content, w, a), w.m.packs[|a.plan.sources|..];
    CollectedObjects(content, w, a);
    assert forall p :: p in later ==> p in w.m.packs;
    if NoLateLink(w, a.plan) {
      forall o, j | o in Objects(w') && 0 <= j < |content(o).names| ensures content(o).names[j] in Objects(w') {
        if o !in a.plan.keep {
          var p, e := EntryLinks(content, w.idx, later, o);
        }
      }
    }
    if Closed(content, w') {
      forall p, e, j | p in later && e in EntriesOf(w.idx, p.id) && 0 <= j < |e.children|
        ensures e.children[j] in a.plan.keep || e.children[j] in Held(later, w.idx)
      {
        assert e.children == content(e.oid).names;
        var k :| 0 <= k < |w.idx[p.id]| && w.idx[p.id][k] == e;
        assert Oids(w.idx[p.id])[k] == e.oid;
        HeldIn(later, w.idx, e.oid);
      }
    }
  }

  /** Every write keeps the invariant, given that no collection lands against a late link. */
  lemma StepKeeps(content: Contents, w: World, a: Action)
    requires Enabled(content, w, a) && Inv(content, w)
    requires a.Collect? ==> NoLateLink(w, a.plan)
    ensures Inv(content, Do(content, w, a))
  {
    match a
    case Upload(id, entries) => HeldMore(w.m.packs, w.idx, id, entries);
    case Push(_, _, _) => PushKeeps(content, w, a);
    case Restore(_, _) => RestoreKeeps(content, w, a);
    case Prune(_) => PruneKeeps(content, w, a);
    case Collect(_, _) =>
      CollectKeepsRoots(content, w, a);
      CollectKeepsClosedIff(content, w, a);
    case Merge(_, _, _, _) => MergeKeeps(content, w, a);
    case Forget(_) =>
  }
}
