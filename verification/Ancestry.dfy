/** depot/src/git/receive.rs and depot/src/git/walk.rs, the two searches of `is_ancestor`: through
    what a push brings, and from there through the stored history. */
module Ancestry {
  import opened Common
  import opened Git
  import opened ObjectIndex
  import opened SetSize
  import LogWalk
  import RefUpdates
  import World

  // --- ways -----------------------------------------------------------------------------

  type Step<!T> = (T, T) -> bool

  ghost predicate Way<T(!new)>(step: Step<T>, way: seq<T>) {
    way != [] && forall i :: 0 < i < |way| ==> step(way[i - 1], way[i])
  }

  /** One is reached from the other, step by step. */
  ghost predicate Leads<T(!new)>(step: Step<T>, a: T, b: T) {
    exists way :: Way(step, way) && way[0] == a && way[|way| - 1] == b
  }

  lemma LeadsToItself<T(!new)>(step: Step<T>, a: T)
    ensures Leads(step, a, a)
  {
    assert Way(step, [a]) && [a][0] == a;
  }

  lemma LeadsOn<T(!new)>(step: Step<T>, a: T, b: T, c: T)
    requires Leads(step, a, b) && step(b, c)
    ensures Leads(step, a, c)
  {
    var way :| Way(step, way) && way[0] == a && way[|way| - 1] == b;
    var longer := way + [c];
    forall i | 0 < i < |longer| ensures step(longer[i - 1], longer[i]) {
      if i < |way| {
        assert step(way[i - 1], way[i]);
      }
    }
    assert Way(step, longer) && longer[0] == a && longer[|longer| - 1] == c;
  }

  ghost predicate ClosedUnder<T(!new)>(step: Step<T>, s: set<T>) {
    forall x, y :: x in s && step(x, y) ==> y in s
  }

  lemma {:induction false} WayStays<T(!new)>(step: Step<T>, s: set<T>, way: seq<T>, i: nat)
    requires Way(step, way) && ClosedUnder(step, s) && way[0] in s && i < |way|
    ensures way[i] in s
  {
    if i > 0 {
      WayStays(step, s, way, i - 1);
      assert step(way[i - 1], way[i]);
    }
  }

  lemma NoWayOut<T(!new)>(step: Step<T>, s: set<T>, a: T, b: T)
    requires ClosedUnder(step, s) && a in s && b !in s
    ensures !Leads(step, a, b)
  {
    if Leads(step, a, b) {
      var way :| Way(step, way) && way[0] == a && way[|way| - 1] == b;
      WayStays(step, s, way, |way| - 1);
    }
  }

  // --- the stored history ---------------------------------------------------------------

  /** From a stored commit to a parent the index holds. */
  predicate StoredStep(ix: Index, c: nat, p: nat) {
    c < |ix.objs| && ix.objs[c].kind == Commit && LogWalk.IsParent(ix, c, p)
  }

  function InStore(ix: Index): Step<nat> {
    (c: nat, p: nat) => StoredStep(ix, c, p)
  }

  /** The parents the search goes on to; one of another kind has none. */
  function NextOf(ix: Index, c: nat): (r: seq<nat>)
    requires Wf(ix) && c < |ix.objs|
    ensures forall p: nat :: p in r <==> StoredStep(ix, c, p)
    ensures forall p :: p in r ==> p < |ix.objs|
  {
    var kids := ix.objs[c].kids;
    if ix.objs[c].kind != Commit || kids == [] then []
    else
      TailIs(ix, c);
      Resolved(kids[1..])
  }

  lemma TailIs(ix: Index, c: nat)
    requires c < |ix.objs| && ix.objs[c].kids != []
    ensures forall p: nat :: Some(p) in ix.objs[c].kids[1..] <==> LogWalk.IsParent(ix, c, p)
  {
    var kids := ix.objs[c].kids;
    forall p: nat | LogWalk.IsParent(ix, c, p) ensures Some(p) in kids[1..] {
      var j :| 0 < j < |kids| && kids[j] == Some(p);
      assert kids[1..][j - 1] == Some(p);
    }
    forall p: nat | Some(p) in kids[1..] ensures LogWalk.IsParent(ix, c, p) {
      var j :| 0 <= j < |kids[1..]| && kids[1..][j] == Some(p);
      assert kids[j + 1] == Some(p);
    }
  }

  lemma StoredOnward(ix: Index, a: nat, c: nat, p: nat)
    requires Leads(InStore(ix), a, c) && StoredStep(ix, c, p)
    ensures Leads(InStore(ix), a, p)
  {
    hide Leads, StoredStep;
    LeadsOn(InStore(ix), a, c, p);
  }

  /** `walk::is_ancestor`: a stored object is found exactly if it lies behind the other. */
  method IsAncestorStored(ix: Index, old_: nat, new_: nat) returns (r: bool)
    requires Wf(ix) && old_ < |ix.objs| && new_ < |ix.objs|
    ensures r <==> Leads(InStore(ix), new_, old_)
  {
    hide Leads, Wf, StoredStep;
    var step := InStore(ix);
    LeadsToItself(step, new_);
    if old_ == new_ {
      return true;
    }
    var seen: set<nat> := {};
    var st := [new_];
    while st != []
      invariant seen <= Positions(ix) && old_ !in seen
      invariant forall c: nat :: c in seen ==> Leads(step, new_, c)
      invariant forall c: nat :: c in st ==> c < |ix.objs| && Leads(step, new_, c)
      invariant new_ in seen || new_ in st
      invariant forall c: nat, p: nat :: c in seen && StoredStep(ix, c, p) ==> p in seen || p in st
      decreases |ix.objs| - |seen|, |st|
    {
      var c := st[|st| - 1];
      ghost var before := st;
      st := st[..|st| - 1];
      assert before == st + [c];
      assert forall x: nat :: x in before <==> x in st || x == c;
      if c == old_ {
        return true;
      }
      if c !in seen {
        SubsetSize(seen + {c}, Positions(ix));
        seen := seen + {c};
        var more := NextOf(ix, c);
        forall p: nat | p in more ensures p < |ix.objs| && Leads(step, new_, p) {
          assert StoredStep(ix, c, p);
          StoredOnward(ix, new_, c, p);
        }
        ghost var left := st;
        st := st + more;
        assert forall p: nat :: p in st <==> p in left || p in more;
      }
    }
    assert ClosedUnder(step, seen);
    NoWayOut(step, seen, new_, old_);
    return false;
  }

  // --- what the push brings -------------------------------------------------------------

  function ParentNames(names: seq<Oid>): seq<Oid> {
    if names == [] then [] else names[1..]
  }

  /** From an object the push brings to any parent it names; of two copies the first counts. */
  predicate BroughtStep(entries: seq<Entry>, c: Oid, p: Oid) {
    c in Oids(entries) && p in ParentNames(Brought(entries, c))
  }

  function Brought(entries: seq<Entry>, c: Oid): seq<Oid>
    requires c in Oids(entries)
  {
    entries[Position(Oids(entries), c).value].children
  }

  function InPush(entries: seq<Entry>): Step<Oid> {
    (c: Oid, p: Oid) => BroughtStep(entries, c, p)
  }

  /** The way leads from stored object to stored object. */
  ghost predicate StoredLeads(ix: Index, a: Oid, b: Oid) {
    a in ix.oids && b in ix.oids && Leads(InStore(ix), Position(ix.oids, a).value, Position(ix.oids, b).value)
  }

  /** What the search finds: first through the push, and from where it leaves it through the store. */
  ghost predicate Found(ix: Index, entries: seq<Entry>, new_: Oid, old_: Oid) {
    exists c :: Leads(InPush(entries), new_, c) && (c == old_ || (c !in Oids(entries) && StoredLeads(ix, c, old_)))
  }

  /** Every id the search can come to. */
  ghost function Universe(entries: seq<Entry>, new_: Oid): (r: set<Oid>)
    ensures new_ in r && forall c, p :: BroughtStep(entries, c, p) ==> p in r
  {
    var r := {new_} + set e, p | e in entries && p in e.children :: p;
    assert forall c, p :: BroughtStep(entries, c, p) ==> p in r by {
      forall c, p | BroughtStep(entries, c, p) ensures p in r {
        var e := entries[Position(Oids(entries), c).value];
        assert e in entries && p in e.children;
      }
    }
    r
  }

  /** `Incoming::is_ancestor`. */
  method IsAncestor(ix: Index, entries: seq<Entry>, old_: Oid, new_: Oid) returns (r: bool)
    requires Wf(ix)
    ensures r <==> Found(ix, entries, new_, old_)
  {
    hide Leads, Universe, ParentNames, StoredLeads;
    var step := InPush(entries);
    LeadsToItself(step, new_);
    if old_ == new_ {
      return true;
    }
    var seen: set<Oid> := {};
    var st := [new_];
    ghost var all := Universe(entries, new_);
    while st != []
      invariant seen <= all && old_ !in seen
      invariant forall c :: c in st || c in seen ==> c in all && Leads(step, new_, c)
      invariant new_ in seen || new_ in st
      invariant forall c, p :: c in seen && BroughtStep(entries, c, p) ==> p in seen || p in st
      invariant forall c :: c in seen && c !in Oids(entries) ==> !StoredLeads(ix, c, old_)
      decreases |all| - |seen|, |st|
    {
      var c := st[|st| - 1];
      ghost var before := st;
      st := st[..|st| - 1];
      assert before == st + [c];
      if c == old_ {
        return true;
      }
      if c !in seen {
        SubsetSize(seen + {c}, all);
        seen := seen + {c};
        if c in Oids(entries) {
          var more := ParentNames(Brought(entries, c));
          forall p | p in more ensures p in all && Leads(step, new_, p) {
            assert BroughtStep(entries, c, p);
            LeadsOn(step, new_, c, p);
          }
          ghost var left := st;
          st := st + more;
          assert forall p :: p in st <==> p in left || p in more;
        } else {
          var found := SearchStore(ix, c, old_);
          if found {
            return true;
          }
        }
      }
    }
    assert ClosedUnder(step, seen);
    forall c | Leads(step, new_, c) ensures c in seen {
      if c !in seen {
        NoWayOut(step, seen, new_, c);
      }
    }
    return false;
  }

  method SearchStore(ix: Index, c: Oid, old_: Oid) returns (r: bool)
    requires Wf(ix)
    ensures r <==> StoredLeads(ix, c, old_)
  {
    hide Leads;
    var a, b := Position(ix.oids, old_), Position(ix.oids, c);
    r := false;
    if a.Some? && b.Some? {
      r := IsAncestorStored(ix, a.value, b.value);
    }
  }

  // --- the truth ------------------------------------------------------------------------

  /** From a commit to a parent it names, wherever either is stored. */
  predicate TrueStep(content: Contents, c: Oid, p: Oid) {
    content(c).kind == Commit && p in ParentNames(content(c).names)
  }

  function InTruth(content: Contents): Step<Oid> {
    (c: Oid, p: Oid) => TrueStep(content, c, p)
  }

  /** One commit lies behind another, or is it. */
  ghost predicate Behind(content: Contents, new_: Oid, old_: Oid) {
    Leads(InTruth(content), new_, old_)
  }

  /** What the kinds of links are checked for: a commit's parents are commits. */
  ghost predicate Typed(entries: seq<Entry>, content: Contents) {
    forall e, p :: e in entries && e.kind == Commit && p in ParentNames(e.children) ==> content(p).kind == Commit
  }

  ghost predicate Told(ix: Index, entries: seq<Entry>, content: Contents) {
    Addressed(entries, content) && TrueIndex(ix, content) && Typed(entries, content)
  }

  lemma BroughtIsTrue(entries: seq<Entry>, content: Contents, c: Oid, p: Oid)
    requires Addressed(entries, content) && Typed(entries, content) && content(c).kind == Commit
    requires BroughtStep(entries, c, p)
    ensures TrueStep(content, c, p) && content(p).kind == Commit
  {
    var e := entries[Position(Oids(entries), c).value];
    assert e in entries && ToldBy(e) == content(c);
  }

  lemma {:induction false} BroughtWay(ix: Index, entries: seq<Entry>, content: Contents, way: seq<Oid>, i: nat)
    requires Told(ix, entries, content) && Way(InPush(entries), way) && i < |way| && content(way[0]).kind == Commit
    ensures content(way[i]).kind == Commit && Behind(content, way[0], way[i])
  {
    hide Leads, BroughtStep, TrueStep, TrueIndex;
    if i == 0 {
      LeadsToItself(InTruth(content), way[0]);
    } else {
      BroughtWay(ix, entries, content, way, i - 1);
      assert InPush(entries)(way[i - 1], way[i]);
      BroughtIsTrue(entries, content, way[i - 1], way[i]);
      LeadsOn(InTruth(content), way[0], way[i - 1], way[i]);
    }
  }

  lemma StoredIsTrue(ix: Index, content: Contents, c: nat, p: nat)
    requires TrueIndex(ix, content) && StoredStep(ix, c, p)
    ensures p < |ix.oids| && TrueStep(content, ix.oids[c], ix.oids[p])
  {
    var j :| 0 < j < |ix.objs[c].kids| && ix.objs[c].kids[j] == Some(p);
    var names := content(ix.oids[c]).names;
    assert ObjTrue(ix.oids, ix.objs[c], content(ix.oids[c]));
    assert names[1..][j - 1] == ix.oids[p];
  }

  lemma {:induction false} StoredWay(ix: Index, content: Contents, start: Oid, way: seq<nat>, i: nat)
    requires TrueIndex(ix, content) && Way(InStore(ix), way) && i < |way|
    requires way[0] < |ix.oids| && Behind(content, start, ix.oids[way[0]])
    ensures way[i] < |ix.oids| && Behind(content, start, ix.oids[way[i]])
  {
    hide Leads, StoredStep, TrueStep, TrueIndex;
    if i > 0 {
      StoredWay(ix, content, start, way, i - 1);
      assert InStore(ix)(way[i - 1], way[i]);
      StoredIsTrue(ix, content, way[i - 1], way[i]);
      LeadsOn(InTruth(content), start, ix.oids[way[i - 1]], ix.oids[way[i]]);
    }
  }

  /** What the search finds does lie behind the commit it began at. */
  lemma FoundIsBehind(ix: Index, entries: seq<Entry>, content: Contents, new_: Oid, old_: Oid)
    requires Told(ix, entries, content) && content(new_).kind == Commit && Found(ix, entries, new_, old_)
    ensures Behind(content, new_, old_)
  {
    hide Told, Behind;
    var c :| Leads(InPush(entries), new_, c) && (c == old_ || (c !in Oids(entries) && StoredLeads(ix, c, old_)));
    var way :| Way(InPush(entries), way) && way[0] == new_ && way[|way| - 1] == c;
    BroughtWay(ix, entries, content, way, |way| - 1);
    if c != old_ {
      var on :| Way(InStore(ix), on) && on[0] == Position(ix.oids, c).value && on[|on| - 1] == Position(ix.oids, old_).value;
      IsTrue(ix, entries, content);
      StoredWay(ix, content, new_, on, |on| - 1);
    }
  }

  lemma IsTrue(ix: Index, entries: seq<Entry>, content: Contents)
    requires Told(ix, entries, content)
    ensures TrueIndex(ix, content)
  {
  }

  /** No commit at hand has a parent that is not. */
  ghost predicate NoneMissing(ix: Index, entries: seq<Entry>) {
    && (forall c, p :: BroughtStep(entries, c, p) ==> p in Oids(entries) || p in ix.oids)
    && (forall i :: 0 <= i < |ix.objs| && ix.objs[i].kind == Commit ==> Whole(ix, i))
  }

  lemma StoredOn(ix: Index, content: Contents, c: Oid, x: Oid, y: Oid)
    requires TrueIndex(ix, content) && StoredLeads(ix, c, x) && TrueStep(content, x, y)
    requires forall i :: 0 <= i < |ix.objs| && ix.objs[i].kind == Commit ==> Whole(ix, i)
    ensures StoredLeads(ix, c, y)
  {
    hide Leads;
    var i := Position(ix.oids, x).value;
    var names := content(x).names;
    assert ObjTrue(ix.oids, ix.objs[i], content(ix.oids[i])) && Whole(ix, i);
    var j :| 0 <= j < |names[1..]| && names[1..][j] == y;
    var p := ix.objs[i].kids[j + 1].value;
    assert ix.objs[i].kids[j + 1] == Some(p) && ix.oids[p] == y;
    assert LogWalk.IsParent(ix, i, p);
    LeadsOn(InStore(ix), Position(ix.oids, c).value, i, p);
    assert Position(ix.oids, y).value == p;
  }

  lemma {:induction false} BroughtKnown(ix: Index, entries: seq<Entry>, way: seq<Oid>, i: nat)
    requires NoneMissing(ix, entries) && Way(InPush(entries), way) && i < |way|
    requires way[0] in Oids(entries) || way[0] in ix.oids
    ensures way[i] in Oids(entries) || way[i] in ix.oids
  {
    hide BroughtStep;
    if i > 0 {
      assert InPush(entries)(way[i - 1], way[i]);
    }
  }

  lemma FoundOn(ix: Index, entries: seq<Entry>, content: Contents, new_: Oid, x: Oid, y: Oid)
    requires Told(ix, entries, content) && NoneMissing(ix, entries) && (new_ in Oids(entries) || new_ in ix.oids)
    requires Found(ix, entries, new_, x) && TrueStep(content, x, y)
    ensures Found(ix, entries, new_, y)
  {
    hide Leads, TrueIndex, BroughtStep, TrueStep, StoredLeads;
    var c :| Leads(InPush(entries), new_, c) && (c == x || (c !in Oids(entries) && StoredLeads(ix, c, x)));
    if c == x && x in Oids(entries) {
      TruthIsBrought(entries, content, x, y);
      LeadsOn(InPush(entries), new_, x, y);
    } else {
      if c == x {
        LeadsKnown(ix, entries, new_, x);
        StoredToItself(ix, x);
      }
      StoredOn(ix, content, c, x, y);
    }
  }

  lemma TruthIsBrought(entries: seq<Entry>, content: Contents, x: Oid, y: Oid)
    requires Addressed(entries, content) && x in Oids(entries) && TrueStep(content, x, y)
    ensures BroughtStep(entries, x, y)
  {
    var e := entries[Position(Oids(entries), x).value];
    assert e in entries && ToldBy(e) == content(x);
  }

  lemma LeadsKnown(ix: Index, entries: seq<Entry>, new_: Oid, x: Oid)
    requires NoneMissing(ix, entries) && (new_ in Oids(entries) || new_ in ix.oids) && Leads(InPush(entries), new_, x)
    ensures x in Oids(entries) || x in ix.oids
  {
    hide NoneMissing;
    var way :| Way(InPush(entries), way) && way[0] == new_ && way[|way| - 1] == x;
    BroughtKnown(ix, entries, way, |way| - 1);
  }

  lemma StoredToItself(ix: Index, x: Oid)
    requires x in ix.oids
    ensures StoredLeads(ix, x, x)
  {
    hide Leads;
    LeadsToItself(InStore(ix), Position(ix.oids, x).value);
  }

  lemma {:induction false} WayIsFound(ix: Index, entries: seq<Entry>, content: Contents, way: seq<Oid>, i: nat)
    requires Told(ix, entries, content) && NoneMissing(ix, entries) && Way(InTruth(content), way) && i < |way|
    requires way[0] in Oids(entries) || way[0] in ix.oids
    ensures Found(ix, entries, way[0], way[i])
  {
    hide Told, NoneMissing, TrueStep, StoredLeads;
    if i == 0 {
      LeadsToItself(InPush(entries), way[0]);
    } else {
      WayIsFound(ix, entries, content, way, i - 1);
      assert InTruth(content)(way[i - 1], way[i]);
      FoundOn(ix, entries, content, way[0], way[i - 1], way[i]);
    }
  }

  /** And with no parent missing, all that lies behind is found. */
  lemma BehindIsFound(ix: Index, entries: seq<Entry>, content: Contents, new_: Oid, old_: Oid)
    requires Told(ix, entries, content) && NoneMissing(ix, entries) && (new_ in Oids(entries) || new_ in ix.oids)
    requires Behind(content, new_, old_)
    ensures Found(ix, entries, new_, old_)
  {
    hide Told, NoneMissing, Found;
    var way :| Way(InTruth(content), way) && way[0] == new_ && way[|way| - 1] == old_;
    WayIsFound(ix, entries, content, way, |way| - 1);
  }

  // --- what a push does to refs ---------------------------------------------------------

  /** The judgement asks the objects at hand and the search. */
  ghost predicate Asks(g: RefUpdates.Grounds, ix: Index, entries: seq<Entry>) {
    && (forall o :: g.kind(o) == RefUpdates.KindOf(ix, entries, o))
    && (forall a, b :: g.descends(a, b) <==> Found(ix, entries, b, a))
  }

  lemma KindIsTrue(ix: Index, entries: seq<Entry>, content: Contents, o: Oid)
    requires Told(ix, entries, content)
    ensures var k := RefUpdates.KindOf(ix, entries, o); k.Some? ==> k.value == content(o).kind
  {
    hide Typed;
    var new_, old_ := Position(Oids(entries), o), Position(ix.oids, o);
    if new_.Some? {
      assert entries[new_.value] in entries && ToldBy(entries[new_.value]) == content(o);
    } else if old_.Some? {
      assert ObjTrue(ix.oids, ix.objs[old_.value], content(ix.oids[old_.value]));
    }
  }

  lemma ForwardIsBehind(g: RefUpdates.Grounds, ix: Index, entries: seq<Entry>, content: Contents, old_: Oid, new_: Oid)
    requires Told(ix, entries, content) && Asks(g, ix, entries) && RefUpdates.FastForward(old_, new_, g)
    ensures content(new_).kind == Commit && Behind(content, new_, old_)
  {
    hide Told, Behind, Found;
    KindIsTrue(ix, entries, content, new_);
    FoundIsBehind(ix, entries, content, new_, old_);
  }

  /** Whatever a push asks for, a protected ref keeps its value or comes to one that has it in its
      history. */
  lemma ProtectedKeepsItsHistory(
    cmds: seq<RefUpdates.Command>, refs: RefUpdates.Refs, g: RefUpdates.Grounds, out: seq<Option<RefUpdates.Refusal>>,
    ix: Index, entries: seq<Entry>, content: Contents, name: string)
    requires Told(ix, entries, content) && Asks(g, ix, entries)
    requires RefUpdates.Judged(cmds, refs, g, out) && name in refs && g.guarded(name)
    ensures var after := RefUpdates.Updated(cmds, out, refs, |cmds|);
            name in after && Behind(content, after[name], refs[name])
  {
    hide Told, Asks, RefUpdates.Accepted, RefUpdates.Updated, RefUpdates.FastForward, Leads;
    RefUpdates.GuardedOnlyAdvance(cmds, refs, g, out, |cmds|, name);
    var after := RefUpdates.Updated(cmds, out, refs, |cmds|);
    if after[name] == refs[name] {
      LeadsToItself(InTruth(content), refs[name]);
    } else {
      ForwardIsBehind(g, ix, entries, content, refs[name], after[name]);
    }
  }

  /** And of any ref the old value is in the history of the new one, or is kept among the dropped. */
  lemma NoHistoryIsLost(
    cmds: seq<RefUpdates.Command>, refs: RefUpdates.Refs, g: RefUpdates.Grounds, out: seq<Option<RefUpdates.Refusal>>,
    ix: Index, entries: seq<Entry>, content: Contents, was: seq<World.Dropped>, at: nat, name: string)
    requires Told(ix, entries, content) && Asks(g, ix, entries)
    requires |out| == |cmds| <= RefUpdates.MAX_COMMANDS && name in refs
    ensures var after := RefUpdates.Updated(cmds, out, refs, |cmds|);
            var kept := RefUpdates.Capped(was + RefUpdates.DroppedBy(cmds, out, refs, g, at, |cmds|));
            || (name in after && Behind(content, after[name], refs[name]))
            || exists d :: d in kept && d.name == name && d.id == refs[name]
  {
    hide Told, Asks, RefUpdates.Updated, RefUpdates.FastForward, RefUpdates.DroppedBy, RefUpdates.Capped, Leads;
    RefUpdates.NothingIsLostToTheCap(cmds, out, refs, g, at, was, name);
    var after := RefUpdates.Updated(cmds, out, refs, |cmds|);
    LeadsToItself(InTruth(content), refs[name]);
    if name in after && RefUpdates.FastForward(refs[name], after[name], g) {
      ForwardIsBehind(g, ix, entries, content, refs[name], after[name]);
    }
  }
}
