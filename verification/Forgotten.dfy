/** What a sweep of retired records costs (depot/src/maint.rs, `sweep`). It drops the records of the
    packs it deletes, and the record is all that a server still retrying has to tell it that its
    write landed. Both runs begin with the first push of `LateLink` and its collection. */
module Forgotten {
  import opened Common
  import opened Git
  import opened ObjectIndex
  import opened World
  import opened Runs
  import opened RefUpdates
  import opened LateLink
  import opened Reloads

  // --- a push enters twice ----------------------------------------------------------------

  const SWEPT := World(3, Manifest(3, MAIN, [P12], [], []), IDX3)
  const TWICE := World(4, Manifest(4, MAIN, [P12, P10], [], []), IDX3)

  const RETRYING := [Upload(10, FIRST), PUSH1, Upload(12, KEPT), Upload(11, LATE), Collect(PLAN, 7), Forget({10}), PUSH1]
  const RETRIED := [START, W1, W2, W3, W4, LEAN, SWEPT, TWICE]

  lemma Sweeping()
    ensures Enabled(CONTENT, LEAN, Forget({10})) && SWEPT == Do(CONTENT, LEAN, Forget({10}))
  {
    assert Without([Retired(10, 7)], {10}) == [];
  }

  lemma PushAgain()
    ensures Enabled(CONTENT, SWEPT, PUSH1) && TWICE == Do(CONTENT, SWEPT, PUSH1)
  {
    IdSets();
    assert MAIN[TAG_A] == 1;
    assert [P12] + [P10] == [P12, P10];
  }

  lemma RetriedIsARun()
    ensures Run(CONTENT, RETRIED, RETRYING)
  {
    Uploads();
    FirstPush();
    CollectAtFour();
    Sweeping();
    PushAgain();
    hide Enabled, Do;
    forall i | 0 <= i < |RETRYING|
      ensures Enabled(CONTENT, RETRIED[i], RETRYING[i]) && RETRIED[i + 1] == Do(CONTENT, RETRIED[i], RETRYING[i])
    {
      assert i in [0, 1, 2, 3, 4, 5, 6];
    }
  }

  /** A command that was carried out is accepted again, and changes nothing more. */
  lemma AgainIsAccepted(cmds: seq<Command>, refs: Refs, g: Grounds)
    requires |cmds| == 1 && cmds[0].was == None && cmds[0].now.Some? && ValidRefname(cmds[0].name)
    requires cmds[0].name in refs && refs[cmds[0].name] == cmds[0].now.value
    requires forall k :: k in refs ==> !Clashes(cmds[0].name, k)
    ensures Judged(cmds, refs, g, [None]) && Updated(cmds, [None], refs, 1) == refs
    ensures DroppedBy(cmds, [None], refs, g, 0, 1) == []
  {
    hide ValidRefname, Clashes;
    var all := Checks(cmds, refs, g);
    assert all[0] == None;
    assert RefUpdates.After(cmds, all, refs, 0) == refs && Updated(cmds, [None], refs, 0) == refs;
    assert RefUpdates.After(cmds, all, refs, 1) == refs;
    assert DroppedBy(cmds, [None], refs, g, 0, 0) == [];
    assert Accepted(cmds, refs, g, 0);
  }

  lemma TagOfMain()
    ensures ValidRefname(TAG_A) && TAG_A in MAIN && MAIN[TAG_A] == 1 && forall k :: k in MAIN ==> !Clashes(TAG_A, k)
  {
    TagNames();
    hide ValidRefname, Clashes;
  }

  lemma AgainIsAllowed(rules: Rules)
    ensures Allowed(SWEPT, TAG_A, 1, rules, PUSH1)
  {
    TagOfMain();
    hide ValidRefname, Clashes, KindOf, Judged, Updated, DroppedBy, Fold, Held, Connected;
    AgainIsAccepted([Creates(TAG_A, 1)], MAIN, GroundsOf(IndexOf(SWEPT), FIRST, rules));
    FirstHasNoLinks(Objects(SWEPT));
  }

  lemma FirstHasNoLinks(held: set<Oid>)
    ensures Connected(FIRST, held)
  {
  }

  /** The push lands but its server is not told; a collection by another replaces its pack; the
      sweep may delete that pack, and forgets it; then the retry, accepted as before, lists the pack
      again. */
  lemma APackReturns(rules: Rules)
    ensures Run(CONTENT, RETRIED, RETRYING) && RETRIED[0] == START && RETRYING[1] == RETRYING[6] == PUSH1
    ensures Allowed(RETRIED[1], TAG_A, 1, rules, PUSH1) && Allowed(RETRIED[6], TAG_A, 1, rules, PUSH1)
    ensures IsRetired(RETRIED[5].m, P10.id) && P10 in RETRIED[7].m.packs
  {
    hide Run, Allowed;
    RetriedIsARun();
    PushesAreAllowed(rules);
    AgainIsAllowed(rules);
    assert Retired(10, 7) in LEAN.m.retired;
  }

  // --- a collection fails though it landed ------------------------------------------------

  function Blob4(): Entry { Blob1(4, []) }

  const P13 := PackMeta(13, 2)
  const P14 := PackMeta(14, 1)
  const BOTH := [Blob1(1, []), Blob4()]

  const IDX4 := IDX3[14 := [Blob4()]]
  const IDX5 := IDX4[13 := BOTH]

  const MORE: map<string, Oid> := MAIN[TAG_B := 4]

  const PUSH4 := Push(Some(P14), MORE, [])
  const PLAN2 := Plan(P13, [P12, P14], {1, 4}, 0)

  const V6 := LEAN.(idx := IDX4)
  const V7 := World(3, Manifest(3, MORE, [P12, P14], [Retired(10, 7)], []), IDX4)
  const V8 := V7.(idx := IDX5)
  const V9 := World(4, Manifest(4, MORE, [P13], [Retired(10, 7), Retired(12, 9), Retired(14, 9)], []), IDX5)
  const V10 := World(5, Manifest(5, MORE, [P13], [], []), IDX5)

  const COLLECTING := [
    Upload(10, FIRST), PUSH1, Upload(12, KEPT), Upload(11, LATE), Collect(PLAN, 7), Upload(14, [Blob4()]), PUSH4,
    Upload(13, BOTH), Collect(PLAN2, 9), Forget({10, 12, 14})]
  const COLLECTED := [START, W1, W2, W3, W4, LEAN, V6, V7, V8, V9, V10]

  lemma MoreIds()
    ensures Oids([Blob4()]) == [4] && Oids(BOTH) == [1, 4] && IdSet([Blob4()]) == {4}
    ensures Held([P12, P14], IDX5) == {1, 4}
  {
    IdSets();
    assert Oids([Blob4()]) == [4] && Oids(BOTH) == [1, 4];
    HeldOne(P12, IDX5);
    HeldOne(P14, IDX5);
    HeldJoin([P12], [P14], IDX5);
    assert [P12] + [P14] == [P12, P14];
  }

  lemma MorePushed()
    ensures Enabled(CONTENT, LEAN, Upload(14, [Blob4()])) && V6 == Do(CONTENT, LEAN, Upload(14, [Blob4()]))
    ensures Enabled(CONTENT, V7, Upload(13, BOTH)) && V8 == Do(CONTENT, V7, Upload(13, BOTH))
  {
  }

  lemma PushFour()
    ensures Enabled(CONTENT, V6, PUSH4) && V7 == Do(CONTENT, V6, PUSH4)
  {
    MoreIds();
    assert MAIN[TAG_A] == 1;
    assert forall n :: n in MORE ==> MORE[n] == 4 || (n in MAIN && MORE[n] == MAIN[n]);
    assert [P12] + [P14] == [P12, P14];
  }

  /** A collection that keeps everything stored can land. */
  lemma KeepingAll(content: Contents, w: World, plan: Plan)
    requires plan.sources == w.m.packs != [] && plan.merged.id in w.idx && !Lists(w.m, plan.merged.id)
    requires forall o :: o in Oids(w.idx[plan.merged.id]) <==> o in plan.keep
    requires LinksWithin(content, plan.keep, plan.keep) && Objects(w) <= plan.keep
    ensures CanCollect(content, w, plan)
  {
    hide Fold, Held, Closure, Tips, LinksWithin, Lists;
    FoldWf(w.m.packs, w.idx);
    FoldHolds(w.m.packs, w.idx);
    var ix := IndexOf(w);
    forall i | i in Needed(ix, w.m, plan.cutoff) && i < |Fold(plan.sources, w.idx).oids| ensures ix.oids[i] in plan.keep {
      assert ix.oids[i] in ix.oids;
    }
  }

  lemma CollectTwo()
    ensures Enabled(CONTENT, V8, Collect(PLAN2, 9)) && V9 == Do(CONTENT, V8, Collect(PLAN2, 9))
  {
    MoreIds();
    BothAreKept();
    hide CanCollect, Fold, Held, LinksWithin, Oids;
    KeepingAll(CONTENT, V8, PLAN2);
    assert V8.m.packs[2..] == [];
    assert RetireAll([P12, P14], 9) == [Retired(12, 9), Retired(14, 9)];
  }

  lemma BothAreKept()
    ensures LinksWithin(CONTENT, {1, 4}, {1, 4}) && forall o :: o in Oids(IDX5[13]) <==> o in {1, 4}
  {
    MoreIds();
  }

  lemma ForgetThree()
    ensures Enabled(CONTENT, V9, Forget({10, 12, 14})) && V10 == Do(CONTENT, V9, Forget({10, 12, 14}))
  {
    var all := V9.m.retired;
    assert all[1..] == [Retired(12, 9), Retired(14, 9)] && all[1..][1..] == [Retired(14, 9)];
    assert Without(all, {10, 12, 14}) == [];
  }

  lemma CollectedIsARun()
    ensures Run(CONTENT, COLLECTED, COLLECTING)
  {
    Uploads();
    FirstPush();
    CollectAtFour();
    MorePushed();
    PushFour();
    CollectTwo();
    ForgetThree();
    hide Enabled, Do;
    forall i | 0 <= i < |COLLECTING|
      ensures Enabled(CONTENT, COLLECTED[i], COLLECTING[i]) && COLLECTED[i + 1] == Do(CONTENT, COLLECTED[i], COLLECTING[i])
    {
      assert i in [0, 1, 2, 3, 4, 5, 6, 7, 8, 9];
    }
  }

  /** The collection lands, but its server is not told; another collection replaces its pack, and a
      sweep forgets it; then a retry finds its pack not listed and its sources gone, and fails its
      check. */
  lemma ALandedCollectionFails()
    ensures Run(CONTENT, COLLECTED, COLLECTING) && COLLECTED[0] == START
    ensures COLLECTING[4] == Collect(PLAN, 7) && Lists(COLLECTED[5].m, PLAN.merged.id)
    ensures !Lists(COLLECTED[10].m, PLAN.merged.id) && !(PLAN.sources <= COLLECTED[10].m.packs)
  {
    CollectedIsARun();
    hide Run;
    assert P12 in LEAN.m.packs;
    assert PLAN.sources[0] == P10 && V10.m.packs[0] == P13;
  }
}
