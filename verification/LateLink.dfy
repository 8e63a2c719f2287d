/** The run that loses an object. Object 3 links to 2; nothing else links anywhere. A
    collection is planned while only 1 is referenced, so it leaves 2 out; before it lands, a
    push brings 3 beside its own ref update. Then a push names 3. */
module LateLink {
  import opened Common
  import opened Git
  import opened ObjectIndex
  import opened World
  import opened Runs
  import opened RefUpdates

  ghost const CONTENT: Contents := o => Content(Tree, 1, 0, if o == 3 then [2] else [])

  function Blob1(o: Oid, children: seq<Oid>): Entry { Entry(o, 12, 1, 0, Tree, 1, None, 0, children) }

  const FIRST := [Blob1(1, []), Blob1(2, [])]
  const LATE := [Blob1(3, [2])]
  const KEPT := [Blob1(1, [])]

  const PLAN := Plan(P12, [P10], {1}, 0)

  const IDX1 := map[10 := FIRST]
  const IDX2 := map[10 := FIRST, 12 := KEPT]
  const IDX3 := map[10 := FIRST, 12 := KEPT, 11 := LATE]

  const TAG_A := "refs/tags/" + ['a']
  const TAG_B := "refs/tags/" + ['b']
  const TAG_C := "refs/tags/" + ['c']

  const MAIN: map<string, Oid> := map[TAG_A := 1]
  const SIDE: map<string, Oid> := MAIN[TAG_B := 1]
  const NAMED: map<string, Oid> := SIDE[TAG_C := 3]

  const P10 := PackMeta(10, 2)
  const P11 := PackMeta(11, 1)
  const P12 := PackMeta(12, 1)

  const W1 := World(0, NEW, IDX1)
  const W2 := World(1, Manifest(1, MAIN, [P10], [], []), IDX1)
  const W3 := W2.(idx := IDX2)
  const W4 := W2.(idx := IDX3)
  const W5 := World(2, Manifest(2, SIDE, [P10, P11], [], []), IDX3)
  const W6 := World(3, Manifest(3, SIDE, [P12, P11], [Retired(10, 7)], []), IDX3)
  const W7 := World(4, Manifest(4, NAMED, [P12, P11], [Retired(10, 7)], []), IDX3)

  const PUSH1 := Push(Some(P10), MAIN, [])
  const PUSH2 := Push(Some(P11), SIDE, [])
  const PUSH3 := Push(None, NAMED, [])

  const ACTIONS := [Upload(10, FIRST), PUSH1, Upload(12, KEPT), Upload(11, LATE), PUSH2, Collect(PLAN, 7), PUSH3]
  const WORLDS := [START, W1, W2, W3, W4, W5, W6, W7]

  lemma IdSets()
    ensures IdSet(FIRST) == {1, 2} && IdSet(LATE) == {3} && IdSet(KEPT) == {1}
    ensures Oids(FIRST) == [1, 2] && Oids(LATE) == [3] && Oids(KEPT) == [1]
  {
    assert Oids(FIRST) == [1, 2] && Oids(LATE) == [3] && Oids(KEPT) == [1];
  }

  lemma HeldSets()
    ensures Held([P10], IDX1) == {1, 2} && Held([P10], IDX3) == {1, 2}
    ensures Held([P11], IDX3) == {3} && Held([P12, P11], IDX3) == {1, 3}
  {
    IdSets();
    HeldOne(P10, IDX1);
    HeldOne(P10, IDX3);
    HeldOne(P11, IDX3);
    HeldOne(P12, IDX3);
    HeldJoin([P12], [P11], IDX3);
    assert [P12] + [P11] == [P12, P11];
  }

  lemma FirstPush()
    ensures Enabled(CONTENT, W1, PUSH1) && W2 == Do(CONTENT, W1, PUSH1)
  {
    IdSets();
    assert MAIN[TAG_A] == 1;
    assert [] + [P10] == [P10];
  }

  lemma SecondPush()
    ensures Enabled(CONTENT, W4, PUSH2) && W5 == Do(CONTENT, W4, PUSH2)
  {
    IdSets();
    HeldSets();
    assert forall n :: n in SIDE ==> SIDE[n] == 1;
    assert [P10] + [P11] == [P10, P11];
  }

  lemma LastPush()
    ensures Enabled(CONTENT, W6, PUSH3) && W7 == Do(CONTENT, W6, PUSH3)
  {
    HeldSets();
    assert forall n :: n in NAMED ==> NAMED[n] == 1 || NAMED[n] == 3;
  }

  lemma SideNamesOne(m: Manifest)
    requires m.refs == SIDE && m.dropped == []
    ensures Roots(m) == {1} && m.refs.Values + DroppedIds(Kept(m.dropped, 0)) == {1}
  {
    assert SIDE[TAG_A] == 1;
    assert forall n :: n in SIDE ==> SIDE[n] == 1;
  }

  /** An object without links needs only itself. */
  lemma LeafNeedsItself(ix: Index, content: Contents, m: Manifest, o: Oid)
    requires TrueIndex(ix, content) && content(o).names == []
    requires m.refs.Values + DroppedIds(Kept(m.dropped, 0)) == {o}
    ensures forall i :: i in Needed(ix, m, 0) ==> i < |ix.oids| && ix.oids[i] == o
  {
    var same := set i | i in Positions(ix) && ix.oids[i] == o;
    forall i | i in same ensures KidsIn(ix.objs[i].kids, same) {
      assert KidsTrue(ix.oids, ix.objs[i].kids, content(o).names);
    }
    ClosureIsLeast(ix, Tips(ix, {o}), same);
  }

  lemma PacksAreGood()
    ensures AllAddressed([P10, P11], IDX3, CONTENT) && AllStandAlone([P10, P11], IDX3)
  {
    IdSets();
  }

  lemma OnlyOneIsNeeded()
    ensures TrueIndex(Fold([P10, P11], IDX3), CONTENT)
    ensures Wf(Fold([P10, P11], IDX3))
    ensures forall i :: i in Needed(Fold([P10, P11], IDX3), W5.m, 0) ==>
                          i < |Fold([P10, P11], IDX3).oids| && Fold([P10, P11], IDX3).oids[i] == 1
  {
    PacksAreGood();
    SideNamesOne(W5.m);
    hide *;
    StandingFolds([P10, P11], IDX3);
    FoldIsTrue([P10, P11], IDX3, CONTENT);
    LeafNeedsItself(Fold([P10, P11], IDX3), CONTENT, W5.m, 1);
  }

  /** So every check of the commit passes. */
  lemma CollectIsEnabled()
    ensures Enabled(CONTENT, W5, ACTIONS[5]) && W6 == Do(CONTENT, W5, ACTIONS[5])
  {
    IdSets();
    OnlyOneIsNeeded();
    hide Fold, Closure, Tips, Needed, TrueIndex, Wf;
    assert W5.m.packs[..1] == [P10] && W5.m.packs[1..] == [P11];
    assert RetireAll([P10], 7) == [Retired(10, 7)];
  }

  lemma Uploads()
    ensures Enabled(CONTENT, START, ACTIONS[0]) && W1 == Do(CONTENT, START, ACTIONS[0])
    ensures Enabled(CONTENT, W2, ACTIONS[2]) && W3 == Do(CONTENT, W2, ACTIONS[2])
    ensures Enabled(CONTENT, W3, ACTIONS[3]) && W4 == Do(CONTENT, W3, ACTIONS[3])
  {
  }

  lemma ItIsARun()
    ensures Run(CONTENT, WORLDS, ACTIONS)
  {
    forall i | 0 <= i < |ACTIONS|
      ensures Enabled(CONTENT, WORLDS[i], ACTIONS[i]) && WORLDS[i + 1] == Do(CONTENT, WORLDS[i], ACTIONS[i])
    {
      StepOf(i);
    }
  }

  lemma StepOf(i: nat)
    requires i < |ACTIONS|
    ensures Enabled(CONTENT, WORLDS[i], ACTIONS[i]) && WORLDS[i + 1] == Do(CONTENT, WORLDS[i], ACTIONS[i])
  {
    hide Enabled, Do;
    if i == 1 { FirstPush(); }
    else if i == 4 { SecondPush(); }
    else if i == 5 { CollectIsEnabled(); }
    else if i == 6 { LastPush(); }
    else { Uploads(); assert i == 0 || i == 2 || i == 3; }
  }

  // --- the pushes are judged ------------------------------------------------------------

  /** A push that creates one ref, as a server makes it: `judge` accepts the command against the
      refs stored and the objects stored or brought, and what is brought is connected. */
  ghost predicate Allowed(w: World, name: string, o: Oid, rules: Rules, a: Action) {
    a.Push? &&
    var entries := if a.pack.Some? then EntriesOf(w.idx, a.pack.value.id) else [];
    var cmds, g := [Creates(name, o)], GroundsOf(IndexOf(w), entries, rules);
    && Judged(cmds, w.m.refs, g, [None]) && Connected(entries, Objects(w))
    && a.refs == Updated(cmds, [None], w.m.refs, 1)
    && a.dropped == Capped(w.m.dropped + DroppedBy(cmds, [None], w.m.refs, g, 0, 1))
  }

  /** Whatever is protected, a new tag on an object at hand is accepted. */
  lemma NewTagIsAccepted(cmds: seq<Command>, refs: Refs, g: Grounds)
    requires |cmds| == 1 && cmds[0].was == None && cmds[0].now.Some? && cmds[0].name !in refs
    requires ValidRefname(cmds[0].name) && !("refs/heads/" <= cmds[0].name)
    requires g.kind(cmds[0].now.value).Some? && forall k :: k in refs ==> !Clashes(cmds[0].name, k)
    ensures Judged(cmds, refs, g, [None]) && Updated(cmds, [None], refs, 1) == refs[cmds[0].name := cmds[0].now.value]
    ensures DroppedBy(cmds, [None], refs, g, 0, 1) == []
  {
    hide ValidRefname;
    var all := Checks(cmds, refs, g);
    assert all[0] == None;
    assert After(cmds, all, refs, 0) == refs && Updated(cmds, [None], refs, 0) == refs;
    assert After(cmds, all, refs, 1) == refs[cmds[0].name := cmds[0].now.value];
    assert !Clashes(cmds[0].name, cmds[0].name);
    assert DroppedBy(cmds, [None], refs, g, 0, 0) == [];
    assert Accepted(cmds, refs, g, 0);
  }

  lemma TagNames()
    ensures forall t :: t in [TAG_A, TAG_B, TAG_C] ==> ValidRefname(t) && !("refs/heads/" <= t)
    ensures forall t, u :: t in [TAG_A, TAG_B, TAG_C] && u in [TAG_A, TAG_B, TAG_C] ==> !Clashes(t, u)
    ensures TAG_A != TAG_B && TAG_A != TAG_C && TAG_B != TAG_C
  {
    TagIsValid('a');
    TagIsValid('b');
    TagIsValid('c');
    hide ValidRefname;
    assert TAG_A[10] == 'a' && TAG_B[10] == 'b' && TAG_C[10] == 'c';
    assert TAG_A[5] == TAG_B[5] == TAG_C[5] == 't' && "refs/heads/"[5] == 'h';
    forall t | t in [TAG_A, TAG_B, TAG_C] ensures !("refs/heads/" <= t) {
      assert t[5] == 't';
    }
  }

  lemma PushIsAllowed(w: World, name: string, o: Oid, rules: Rules, a: Action)
    requires a.Push? && Enabled(CONTENT, w, a) && w.m.dropped == a.dropped == [] && a.refs == w.m.refs[name := o]
    requires name in [TAG_A, TAG_B, TAG_C] && name !in w.m.refs && w.m.refs.Keys <= {TAG_A, TAG_B, TAG_C}
    requires o in Objects(w) || (a.pack.Some? && o in Oids(EntriesOf(w.idx, a.pack.value.id)))
    ensures Allowed(w, name, o, rules, a)
  {
    FoldWf(w.m.packs, w.idx);
    FoldHolds(w.m.packs, w.idx);
    TagNames();
    hide Fold, Wf, ValidRefname, Clashes, KindOf, Judged, Updated, DroppedBy;
    var entries := if a.pack.Some? then EntriesOf(w.idx, a.pack.value.id) else [];
    NewTagIsAccepted([Creates(name, o)], w.m.refs, GroundsOf(IndexOf(w), entries, rules));
  }

  /** So the three pushes are ones the server accepts, whatever it protects. */
  lemma PushesAreAllowed(rules: Rules)
    ensures Allowed(W1, TAG_A, 1, rules, PUSH1)
    ensures Allowed(W4, TAG_B, 1, rules, PUSH2)
    ensures Allowed(W6, TAG_C, 3, rules, PUSH3)
  {
    TagNames();
    IdSets();
    HeldSets();
    FirstPush();
    SecondPush();
    hide Allowed, Enabled, Do, Clashes, ValidRefname;
    PushIsAllowed(W1, TAG_A, 1, rules, PUSH1);
    PushIsAllowed(W4, TAG_B, 1, rules, PUSH2);
    ThirdIsAllowed(rules);
  }

  lemma ThirdIsAllowed(rules: Rules)
    ensures Allowed(W6, TAG_C, 3, rules, PUSH3)
  {
    TagNames();
    HeldSets();
    LastPush();
    hide Allowed, Enabled, Do, Clashes, ValidRefname;
    PushIsAllowed(W6, TAG_C, 3, rules, PUSH3);
  }

  lemma LastPushLoses()
    ensures Safe(CONTENT, W6) && !Safe(CONTENT, W7)
  {
    HeldSets();
    SideNamesOne(W6.m);
    NamedNamesThree();
    assert LinksWithin(CONTENT, {1}, {1});
    forall c: set<Oid> | 3 in c && c <= Objects(W7) ensures !LinksWithin(CONTENT, c, c) {
      assert CONTENT(3).names[0] == 2 && 2 !in c;
    }
  }

  lemma NamedNamesThree()
    ensures 3 in Roots(W7.m)
  {
    assert NAMED[TAG_C] == 3;
  }

  /** The closure property fails at the end of a run every step of which the servers'
      checks allow, and held until the last push. */
  lemma ARunThatLosesAnObject(rules: Rules)
    ensures Run(CONTENT, WORLDS, ACTIONS) && WORLDS[0] == START
    ensures Allowed(WORLDS[1], TAG_A, 1, rules, ACTIONS[1])
    ensures Allowed(WORLDS[4], TAG_B, 1, rules, ACTIONS[4])
    ensures Allowed(WORLDS[6], TAG_C, 3, rules, ACTIONS[6])
    ensures Safe(CONTENT, WORLDS[6]) && !Safe(CONTENT, WORLDS[7])
  {
    hide Run, Safe, Allowed, Enabled, Do;
    ItIsARun();
    PushesAreAllowed(rules);
    LastPushLoses();
  }
}
