/** Whole runs of a stored repository: what every interleaving keeps, and the one
    interleaving that does not. */
module Runs {
  import opened Common
  import opened Git
  import opened ObjectIndex
  import opened World

  const START := World(0, NEW, map[])

  ghost predicate Run(content: Contents, s: seq<World>, acts: seq<Action>) {
    && |s| == |acts| + 1
    && forall i :: 0 <= i < |acts| ==> Enabled(content, s[i], acts[i]) && s[i + 1] == Do(content, s[i], acts[i])
  }

  /** No collection of the run lands while a pack pushed since it was planned links to an
      object it leaves out. */
  ghost predicate Careful(s: seq<World>, acts: seq<Action>) {
    forall i :: 0 <= i < |acts| && i < |s| && acts[i].Collect? ==>
                  acts[i].plan.sources <= s[i].m.packs && NoLateLink(s[i], acts[i].plan)
  }

  ghost predicate CarefulFromStart(content: Contents, s: seq<World>, acts: seq<Action>) {
    Run(content, s, acts) && s[0] == START && Careful(s, acts)
  }

  /** In every interleaving of pushes, restores, prunes, merges, sweeps and collections the packs
      hold the full closure of every ref and every dropped value listed, provided no collection
      lands against a late link. */
  lemma {:induction false} EveryRunIsSafe(content: Contents, s: seq<World>, acts: seq<Action>, i: nat)
    requires CarefulFromStart(content, s, acts) && i < |s|
    ensures Inv(content, s[i]) && Safe(content, s[i])
  {
    if i == 0 {
      assert Held(START.m.packs, START.idx) == {};
      assert Roots(START.m) == {};
    } else {
      EveryRunIsSafe(content, s, acts, i - 1);
      assert acts[i - 1].Collect? ==> NoLateLink(s[i - 1], acts[i - 1].plan);
      StepKeeps(content, s[i - 1], acts[i - 1]);
    }
    InvIsSafe(content, s[i]);
  }

  // --- a pack enters once ---------------------------------------------------------------

  /** The write drops the record of a retired pack. */
  predicate Forgets(a: Action, id: PackId) {
    a.Forget? && id in a.ids
  }

  lemma ListedUntilForgotten(content: Contents, w: World, a: Action, id: PackId)
    requires Enabled(content, w, a) && Lists(w.m, id) && !Forgets(a, id)
    ensures Lists(Do(content, w, a).m, id)
  {
    var m, m' := w.m, Do(content, w, a).m;
    assert forall r :: r in m.retired && r.id == id ==> r in m'.retired;
    forall p | p in m.packs && p.id == id ensures Lists(m', id) {
      hide Enabled;
      match a
      case Collect(plan, at) => StaysListed(m.packs, 0, |plan.sources|, [plan.merged], m, at, p);
      case Merge(from, count, merged, at) => StaysListed(m.packs, from, count, [merged], m, at, p);
      case _ =>
        assert p in m'.packs;
    }
  }

  /** Packs swapped out of the list are retired. */
  lemma StaysListed(packs: seq<PackMeta>, from: nat, count: nat, put: seq<PackMeta>, m: Manifest, at: nat, p: PackMeta)
    requires from + count <= |packs| && p in packs
    ensures Lists(m.(packs := packs[..from] + put + packs[from + count..],
                     retired := m.retired + RetireAll(packs[from..from + count], at)), p.id)
  {
    var gone := packs[from..from + count];
    assert packs == packs[..from] + gone + packs[from + count..];
    if p in gone {
      GoneIsRetired(gone, at, p);
      assert Retired(p.id, at) in m.retired + RetireAll(gone, at);
    } else {
      assert p in packs[..from] + put + packs[from + count..];
    }
  }

  lemma GoneIsRetired(packs: seq<PackMeta>, at: nat, p: PackMeta)
    ensures p in packs ==> Retired(p.id, at) in RetireAll(packs, at)
  {
    if p in packs {
      var i :| 0 <= i < |packs| && packs[i] == p;
      assert RetireAll(packs, at)[i] == Retired(p.id, at);
    }
  }

  ghost predicate ForgottenBetween(acts: seq<Action>, i: nat, j: nat, id: PackId) {
    exists k :: i <= k < j && k < |acts| && Forgets(acts[k], id)
  }

  lemma {:induction false} ListedLater(content: Contents, s: seq<World>, acts: seq<Action>, i: nat, j: nat, id: PackId)
    requires Run(content, s, acts) && i <= j < |s| && Lists(s[i].m, id) && !ForgottenBetween(acts, i, j, id)
    ensures Lists(s[j].m, id)
    decreases j
  {
    if i < j {
      ListedLater(content, s, acts, i, j - 1, id);
      ListedUntilForgotten(content, s[j - 1], acts[j - 1], id);
    }
  }

  /** The pack a write brings into the manifest. */
  function Brings(a: Action): Option<PackMeta> {
    match a
    case Push(pack, _, _) => pack
    case Collect(plan, _) => Some(plan.merged)
    case Merge(_, _, merged, _) => Some(merged)
    case _ => None
  }

  lemma BroughtIsNew(content: Contents, w: World, a: Action)
    requires Enabled(content, w, a) && Brings(a).Some?
    ensures !Lists(w.m, Brings(a).value.id) && Brings(a).value in Do(content, w, a).m.packs
  {
  }

  /** However often its server retries, and whatever the others do meanwhile, a pack enters the
      manifest a second time only after its record was forgotten. */
  lemma EntersOnceUnlessForgotten(content: Contents, s: seq<World>, acts: seq<Action>, i: nat, j: nat, id: PackId)
    requires Run(content, s, acts) && i < j < |acts|
    requires Brings(acts[i]).Some? && Brings(acts[j]).Some? && Brings(acts[i]).value.id == Brings(acts[j]).value.id == id
    ensures ForgottenBetween(acts, i + 1, j, id)
  {
    hide Enabled, Do;
    BroughtIsNew(content, s[i], acts[i]);
    BroughtIsNew(content, s[j], acts[j]);
    if !ForgottenBetween(acts, i + 1, j, id) {
      ListedLater(content, s, acts, i + 1, j, id);
    }
  }

  /** Listed, but no longer served. */
  predicate IsRetired(m: Manifest, id: PackId) {
    Lists(m, id) && forall p :: p in m.packs ==> p.id != id
  }

  lemma StaysRetired(content: Contents, w: World, a: Action, id: PackId)
    requires Enabled(content, w, a) && IsRetired(w.m, id) && !Forgets(a, id)
    ensures IsRetired(Do(content, w, a).m, id)
  {
    ListedUntilForgotten(content, w, a, id);
    if Brings(a).Some? {
      BroughtIsNew(content, w, a);
    }
    forall p | p in Do(content, w, a).m.packs ensures p.id != id {
      assert p in w.m.packs || Brings(a) == Some(p);
    }
  }

  /** So a retired pack is not served again as long as it is remembered, which is when a sweep may
      delete it. */
  lemma {:induction false} RetiredUntilForgotten(content: Contents, s: seq<World>, acts: seq<Action>, i: nat, j: nat, id: PackId)
    requires Run(content, s, acts) && i <= j < |s| && IsRetired(s[i].m, id) && !ForgottenBetween(acts, i, j, id)
    ensures IsRetired(s[j].m, id)
    decreases j
  {
    hide Enabled, Do, IsRetired;
    if i < j {
      RetiredUntilForgotten(content, s, acts, i, j - 1, id);
      StaysRetired(content, s[j - 1], acts[j - 1], id);
    }
  }

  predicate Serves(m: Manifest, id: PackId) {
    exists p :: p in m.packs && p.id == id
  }

  lemma RetiredIsUnserved(m: Manifest, id: PackId)
    requires IsRetired(m, id)
    ensures !Serves(m, id)
  {
  }

  lemma ServedWasBrought(content: Contents, w: World, a: Action, id: PackId)
    requires Enabled(content, w, a) && Serves(Do(content, w, a).m, id)
    ensures Serves(w.m, id) || (Brings(a).Some? && Brings(a).value.id == id)
  {
    var p :| p in Do(content, w, a).m.packs && p.id == id;
    assert p in w.m.packs || Brings(a) == Some(p);
  }

  lemma LastBrought(content: Contents, s: seq<World>, acts: seq<Action>, l: nat, id: PackId)
    requires Run(content, s, acts) && l < |acts| && !Serves(s[l].m, id) && Serves(s[l + 1].m, id)
    ensures Brings(acts[l]).Some? && Brings(acts[l]).value.id == id && !Lists(s[l].m, id)
  {
    hide Enabled, Do, Lists, Serves;
    ServedWasBrought(content, s[l], acts[l], id);
    BroughtIsNew(content, s[l], acts[l]);
  }

  lemma ForgottenFirst(content: Contents, s: seq<World>, acts: seq<Action>, i: nat, l: nat, id: PackId) returns (k: nat)
    requires Run(content, s, acts) && i <= l < |acts| && IsRetired(s[i].m, id) && !Lists(s[l].m, id)
    ensures i <= k < l && Forgets(acts[k], id)
  {
    hide Enabled, Do, Lists, Forgets;
    if !ForgottenBetween(acts, i, l, id) {
      ListedLater(content, s, acts, i, l, id);
    }
    k :| i <= k < l && k < |acts| && Forgets(acts[k], id);
  }

  /** And if it ever is, its record was forgotten and the pack then brought in again, after a sweep
      was free to delete it. */
  lemma {:induction false} ServedAgain(content: Contents, s: seq<World>, acts: seq<Action>, i: nat, j: nat, id: PackId)
    returns (k: nat, l: nat)
    requires Run(content, s, acts) && i <= j < |s| && IsRetired(s[i].m, id) && Serves(s[j].m, id)
    ensures i <= k < l < j && Forgets(acts[k], id)
    ensures Brings(acts[l]).Some? && Brings(acts[l]).value.id == id
    decreases j
  {
    hide Enabled, Do, Lists, Serves, IsRetired, Forgets, Brings;
    RetiredIsUnserved(s[i].m, id);
    if Serves(s[j - 1].m, id) {
      k, l := ServedAgain(content, s, acts, i, j - 1, id);
    } else {
      l := j - 1;
      LastBrought(content, s, acts, l, id);
      k := ForgottenFirst(content, s, acts, i, l, id);
    }
  }

  /** No pack a sweep may have deleted is served. */
  ghost predicate NoneServedDeleted(s: seq<World>) {
    forall i, j, id :: 0 <= i <= j < |s| && IsRetired(s[i].m, id) ==> !Serves(s[j].m, id)
  }

  /** No write brings in a pack that was retired before. */
  ghost predicate NoneReturns(s: seq<World>, acts: seq<Action>) {
    forall i, l :: 0 <= i <= l < |acts| && l < |s| && Brings(acts[l]).Some? ==> !IsRetired(s[i].m, Brings(acts[l]).value.id)
  }

  /** So a sweep deletes nothing that is ever served again exactly if no retired pack is brought in
      anew. */
  lemma DeletedIsUnservedIff(content: Contents, s: seq<World>, acts: seq<Action>)
    requires Run(content, s, acts)
    ensures NoneServedDeleted(s) <==> NoneReturns(s, acts)
  {
    hide Enabled, Do, IsRetired, Serves, Brings;
    if NoneServedDeleted(s) {
      forall i, l | 0 <= i <= l < |acts| && l < |s| && Brings(acts[l]).Some? ensures !IsRetired(s[i].m, Brings(acts[l]).value.id) {
        BroughtIsServed(content, s[l], acts[l]);
        assert Serves(s[l + 1].m, Brings(acts[l]).value.id);
      }
    }
    if NoneReturns(s, acts) {
      forall i, j, id | 0 <= i <= j < |s| && IsRetired(s[i].m, id) ensures !Serves(s[j].m, id) {
        if Serves(s[j].m, id) {
          var k, l := ServedAgain(content, s, acts, i, j, id);
        }
      }
    }
  }

  lemma BroughtIsServed(content: Contents, w: World, a: Action)
    requires Enabled(content, w, a) && Brings(a).Some?
    ensures Serves(Do(content, w, a).m, Brings(a).value.id)
  {
    hide Enabled, Do;
    BroughtIsNew(content, w, a);
  }

  // --- a collection replaces its sources for good ----------------------------------------

  predicate DistinctIds(packs: seq<PackMeta>) {
    forall i, j :: 0 <= i < j < |packs| ==> packs[i].id != packs[j].id
  }

  lemma StepKeepsDistinct(content: Contents, w: World, a: Action)
    requires Enabled(content, w, a) && DistinctIds(w.m.packs)
    ensures DistinctIds(Do(content, w, a).m.packs)
  {
    hide DistinctIds;
    var packs := w.m.packs;
    if Brings(a).Some? {
      BroughtIsNew(content, w, a);
      var new_ := Brings(a).value;
      assert forall p :: p in packs ==> p.id != new_.id;
      match a
      case Push(_, _, _) => ReplacedIsDistinct(packs, |packs|, 0, new_);
      case Collect(plan, _) => ReplacedIsDistinct(packs, 0, |plan.sources|, new_);
      case Merge(from, count, _, _) => ReplacedIsDistinct(packs, from, count, new_);
    }
  }

  lemma ReplacedIsDistinct(packs: seq<PackMeta>, from: nat, count: nat, new_: PackMeta)
    requires from + count <= |packs| && DistinctIds(packs) && forall p :: p in packs ==> p.id != new_.id
    ensures DistinctIds(packs[..from] + [new_] + packs[from + count..])
    ensures from == |packs| ==> packs[..from] + [new_] + packs[from + count..] == packs + [new_]
    ensures from == 0 ==> packs[..from] + [new_] + packs[from + count..] == [new_] + packs[count..]
  {
    var u := packs[..from] + [new_] + packs[from + count..];
    forall i, j | 0 <= i < j < |u| ensures u[i].id != u[j].id {
      var a := WasAt(packs, from, count, new_, i);
      var b := WasAt(packs, from, count, new_, j);
    }
  }

  /** Where an entry of the new list was. */
  lemma WasAt(packs: seq<PackMeta>, from: nat, count: nat, new_: PackMeta, i: nat) returns (k: int)
    requires from + count <= |packs| && i <= |packs| - count
    ensures var u := packs[..from] + [new_] + packs[from + count..];
            && |u| == |packs| - count + 1
            && k == (if i < from then i else if i == from then -1 else i - 1 + count)
            && (if k == -1 then u[i] == new_ else k < |packs| && u[i] == packs[k] && packs[k] in packs)
  {
    k := if i < from then i else if i == from then -1 else i - 1 + count;
  }

  lemma {:induction false} RunIsDistinct(content: Contents, s: seq<World>, acts: seq<Action>, i: nat)
    requires Run(content, s, acts) && s[0] == START && i < |s|
    ensures DistinctIds(s[i].m.packs)
  {
    hide Enabled, Do;
    if i > 0 {
      RunIsDistinct(content, s, acts, i - 1);
      StepKeepsDistinct(content, s[i - 1], acts[i - 1]);
    }
  }

  ghost predicate BroughtBetween(acts: seq<Action>, i: nat, j: nat, id: PackId) {
    exists k :: i <= k < j && k < |acts| && Brings(acts[k]).Some? && Brings(acts[k]).value.id == id
  }

  lemma {:induction false} StaysUnserved(content: Contents, s: seq<World>, acts: seq<Action>, i: nat, j: nat, id: PackId)
    requires Run(content, s, acts) && i <= j < |s| && !Serves(s[i].m, id) && !BroughtBetween(acts, i, j, id)
    ensures !Serves(s[j].m, id)
    decreases j
  {
    hide Enabled, Do;
    if i < j {
      StaysUnserved(content, s, acts, i, j - 1, id);
      if Serves(s[j].m, id) {
        ServedWasBrought(content, s[j - 1], acts[j - 1], id);
      }
    }
  }

  lemma SourcesGo(content: Contents, w: World, a: Action)
    requires a.Collect? && Enabled(content, w, a) && DistinctIds(w.m.packs)
    ensures !Serves(Do(content, w, a).m, a.plan.sources[0].id)
  {
    BroughtIsNew(content, w, a);
    var first, n := a.plan.sources[0], |a.plan.sources|;
    assert w.m.packs[0] == first;
    forall p | p in Do(content, w, a).m.packs ensures p.id != first.id {
      if p != a.plan.merged {
        var k :| 0 <= k < |w.m.packs[n..]| && w.m.packs[n..][k] == p;
        assert w.m.packs[n + k] == p;
      }
    }
  }

  lemma FirstIsServed(sources: seq<PackMeta>, m: Manifest)
    requires sources != []
    ensures sources <= m.packs ==> Serves(m, sources[0].id)
  {
    if sources <= m.packs {
      assert m.packs[0] == sources[0];
    }
  }

  /** Once a collection landed, the packs it replaced are no prefix of the manifest's again unless
      the first of them is brought in anew: a retry that does not find the new pack listed can only
      answer that the packs changed, though the collection landed. */
  lemma LandedLooksChanged(content: Contents, s: seq<World>, acts: seq<Action>, i: nat, j: nat)
    requires Run(content, s, acts) && s[0] == START && i < j < |s| && acts[i].Collect?
    requires acts[i].plan.sources != [] ==> !BroughtBetween(acts, i + 1, j, acts[i].plan.sources[0].id)
    ensures !(acts[i].plan.sources <= s[j].m.packs)
  {
    RunIsDistinct(content, s, acts, i);
    assert acts[i].plan.sources != [];
    SourcesGo(content, s[i], acts[i]);
    hide Enabled, Do;
    StaysUnserved(content, s, acts, i + 1, j, acts[i].plan.sources[0].id);
    FirstIsServed(acts[i].plan.sources, s[j].m);
  }

  // --- exactly when ---------------------------------------------------------------------

  /** A push of no objects that creates a ref on an object already stored: `check` asks only
      that the object is there. */
  function Naming(w: World, name: string, o: Oid): Action {
    Push(None, w.m.refs[name := o], w.m.dropped)
  }

  lemma NamingIsEnabled(content: Contents, w: World, name: string, o: Oid)
    requires o in Objects(w)
    ensures Enabled(content, w, Naming(w, name, o))
  {
  }

  ghost predicate NamingIsSafe(content: Contents, w: World, name: string, o: Oid) {
    o in Objects(w) ==> (NamingIsEnabled(content, w, name, o); Safe(content, Do(content, w, Naming(w, name, o))))
  }

  /** Naming stored objects is harmless exactly while the packs are closed under links. */
  lemma ClosedIffNamingIsSafe(content: Contents, w: World, name: string)
    requires Stored(content, w) && Rooted(w)
    ensures Closed(content, w) <==> forall o :: NamingIsSafe(content, w, name, o)
  {
    if Closed(content, w) {
      forall o ensures NamingIsSafe(content, w, name, o) {
        if o in Objects(w) {
          NamingIsEnabled(content, w, name, o);
          StepKeeps(content, w, Naming(w, name, o));
          InvIsSafe(content, Do(content, w, Naming(w, name, o)));
        }
      }
    }
    if forall o :: NamingIsSafe(content, w, name, o) {
      forall o, j | o in Objects(w) && 0 <= j < |content(o).names| ensures content(o).names[j] in Objects(w) {
        NamingIsEnabled(content, w, name, o);
        assert NamingIsSafe(content, w, name, o);
        var w' := Do(content, w, Naming(w, name, o));
        assert w'.m.refs[name] == o;
        assert o in Roots(w'.m) && Objects(w') == Objects(w);
        var c: set<Oid> :| o in c && c <= Objects(w') && LinksWithin(content, c, c);
      }
    }
  }

  /** The exact condition. After a collection lands in a sound repository, whatever links its
      index has resolved, every push that names a stored object keeps the closure property if and
      only if no pack pushed since the plan linked to an object left out. */
  lemma LateLinkDecides(content: Contents, w: World, a: Action, name: string)
    requires a.Collect? && Enabled(content, w, a) && Inv(content, w)
    ensures NoLateLink(w, a.plan) <==> forall o :: NamingIsSafe(content, Do(content, w, a), name, o)
  {
    CollectKeepsClosedIff(content, w, a);
    CollectKeepsRoots(content, w, a);
    ClosedIffNamingIsSafe(content, Do(content, w, a), name);
  }
}
