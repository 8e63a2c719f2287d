/** What becomes of a push's connectivity check while its server looks at storage again or forgets
    the repository and loads it anew (depot/src/app.rs, `load` and `reset_from_storage`): a copy
    loaded anew counts its generations from 0. */
module Reloads {
  import opened Common
  import opened Git
  import opened ObjectIndex
  import opened World
  import opened Runs
  import opened Storage
  import opened Servers
  import opened RefUpdates
  import opened Pushes
  import opened LateLink

  /** What a push sees of the copy loaded. */
  datatype Copy = Copy(ix: Index, gen: nat)

  datatype Move = Revalidated(ix: Index, rebuilds: nat) | Reloaded(ix: Index)

  /** Without a rebuild an index only grows. */
  ghost predicate Fair(c: Copy, moves: seq<Move>) {
    moves != [] ==>
      var m := moves[|moves| - 1];
      && Fair(c, moves[..|moves| - 1])
      && (m.Revalidated? && m.rebuilds == 0 ==> GrownFrom(After(c, moves[..|moves| - 1]).ix, m.ix))
  }

  function After(c: Copy, moves: seq<Move>): Copy {
    if moves == [] then c
    else
      match moves[|moves| - 1]
      case Revalidated(ix, rebuilds) => Copy(ix, After(c, moves[..|moves| - 1]).gen + rebuilds)
      case Reloaded(ix) => Copy(ix, 0)
  }

  /** The rebuilds since the copy was last loaded anew, if it was. */
  function SinceReload(moves: seq<Move>): Option<nat> {
    if moves == [] then None
    else
      match moves[|moves| - 1]
      case Reloaded(_) => Some(0)
      case Revalidated(_, rebuilds) =>
        var n := SinceReload(moves[..|moves| - 1]);
        if n.Some? then Some(n.value + rebuilds) else None
  }

  ghost function CopyOf(s: Server): Copy
    reads s
  {
    Copy(s.ix, s.gen)
  }

  /** A server's own operations are such moves. */
  method Revalidate(s: Server, force: bool, due: bool) returns (ok: bool, ghost m: Move)
    requires s.Valid()
    modifies s, s.store
    ensures s.Valid() && Fair(old(CopyOf(s)), [m]) && CopyOf(s) == After(old(CopyOf(s)), [m])
  {
    hide Server.Valid, GrownFrom;
    ghost var was := CopyOf(s);
    ok := s.Revalidate(force, due);
    m := Revalidated(s.ix, s.gen - was.gen);
    OneMove(was, m);
  }

  method Reload(s: Server) returns (s': Option<Server>, ghost m: Move)
    requires s.Valid()
    modifies s.store
    ensures s'.Some? ==> s'.value.Valid() && Fair(old(CopyOf(s)), [m]) && CopyOf(s'.value) == After(old(CopyOf(s)), [m])
  {
    ghost var was := CopyOf(s);
    m := Reloaded(s.ix);
    s' := Load(s.store);
    if s'.Some? {
      m := Reloaded(s'.value.ix);
      OneMove(was, m);
    }
  }

  lemma OneMove(c: Copy, m: Move)
    requires m.Revalidated? && m.rebuilds == 0 ==> GrownFrom(c.ix, m.ix)
    ensures Fair(c, [m])
    ensures After(c, [m]) == match m case Revalidated(ix, rebuilds) => Copy(ix, c.gen + rebuilds) case Reloaded(ix) => Copy(ix, 0)
  {
    assert [m][..0] == [];
    assert After(c, []) == c && Fair(c, []);
  }

  /** Never reloaded, a copy's generation stands still only while its index grows; reloaded, it
      counts the rebuilds since. */
  lemma {:induction false} GenerationIs(c: Copy, moves: seq<Move>)
    requires Fair(c, moves) && Wf(c.ix)
    ensures SinceReload(moves).None? ==>
              After(c, moves).gen >= c.gen && (After(c, moves).gen == c.gen ==> GrownFrom(c.ix, After(c, moves).ix))
    ensures SinceReload(moves).Some? ==> After(c, moves).gen == SinceReload(moves).value
  {
    hide Wf;
    if moves != [] {
      GenerationIs(c, moves[..|moves| - 1]);
    }
  }

  /** Exactly when the commit takes a check as made against a copy that lacks what the push links
      to: the copy was loaded anew, and rebuilt since as often as the first one had been. */
  lemma StaleIsTrustedIff(c: Copy, moves: seq<Move>, entries: seq<Entry>)
    requires Fair(c, moves) && Wf(c.ix) && Connected(entries, Known(c.ix))
    ensures var now := After(c, moves);
            !Trusted(now.ix, now.gen, Some(c.gen), entries)
            <==> SinceReload(moves) == Some(c.gen) && !Connected(entries, Known(now.ix))
  {
    GenerationIs(c, moves);
    var now := After(c, moves);
    hide After, SinceReload, Fair, Wf;
    if SinceReload(moves).None? && now.gen == c.gen {
      GrownStaysConnected(entries, c.ix, now.ix);
    }
  }

  lemma GrownStaysConnected(entries: seq<Entry>, ix: Index, ix': Index)
    requires Connected(entries, Known(ix)) && GrownFrom(ix, ix')
    ensures Connected(entries, Known(ix'))
  {
    assert Known(ix) <= Known(ix');
  }

  // --- what it costs --------------------------------------------------------------------

  /** The repository once a collection left object 2 out, and after a push of 3, which links to 2. */
  const LEAN := World(2, Manifest(2, MAIN, [P12], [Retired(10, 7)], []), IDX3)
  const BROKEN := World(3, Manifest(3, MAIN[TAG_C := 3], [P12, P11], [Retired(10, 7)], []), IDX3)

  /** How the repository came to be lean: the collection of `LateLink`, landing before the push. */
  const LEANING := [Upload(10, FIRST), PUSH1, Upload(12, KEPT), Upload(11, LATE), Collect(PLAN, 7)]
  const LEANER := [START, W1, W2, W3, W4, LEAN]

  lemma MainNeedsOne()
    ensures Wf(IndexOf(W4))
    ensures forall i :: i in Needed(IndexOf(W4), W4.m, 0) ==> i < |IndexOf(W4).oids| && IndexOf(W4).oids[i] == 1
  {
    IdSets();
    assert MAIN[TAG_A] == 1;
    assert W4.m.refs.Values + DroppedIds(Kept(W4.m.dropped, 0)) == {1};
    assert AllAddressed([P10], IDX3, CONTENT);
    FoldIsTrue([P10], IDX3, CONTENT);
    hide Fold, Needed, TrueIndex;
    LeafNeedsItself(IndexOf(W4), CONTENT, W4.m, 1);
  }

  lemma CollectAtFour()
    ensures Enabled(CONTENT, W4, Collect(PLAN, 7)) && LEAN == Do(CONTENT, W4, Collect(PLAN, 7))
  {
    IdSets();
    MainNeedsOne();
    hide Fold, Closure, Tips, Needed, TrueIndex, Wf;
    assert W4.m.packs[..1] == [P10] && W4.m.packs[1..] == [];
    assert RetireAll([P10], 7) == [Retired(10, 7)];
  }

  lemma LeanIsReached()
    ensures Run(CONTENT, LEANER, LEANING)
  {
    Uploads();
    FirstPush();
    CollectAtFour();
    hide Enabled, Do;
    forall i | 0 <= i < |LEANING|
      ensures Enabled(CONTENT, LEANER[i], LEANING[i]) && LEANER[i + 1] == Do(CONTENT, LEANER[i], LEANING[i])
    {
      assert i in [0, 1, 2, 3, 4];
    }
  }

  lemma LeanHolds()
    ensures Held([P12], IDX3) == {1} && Held([P12, P11], IDX3) == {1, 3} && Held([P10], IDX3) == {1, 2}
  {
    IdSets();
    HeldSets();
    HeldOne(P12, IDX3);
  }

  lemma LeanIsSound()
    ensures Inv(CONTENT, LEAN) && !Safe(CONTENT, BROKEN)
  {
    LeanHolds();
    assert MAIN[TAG_A] == 1;
    assert Roots(LEAN.m) == {1};
    assert BROKEN.m.refs[TAG_C] == 3;
    assert 3 in Roots(BROKEN.m);
    forall c: set<Oid> | 3 in c && c <= Objects(BROKEN) ensures !LinksWithin(CONTENT, c, c) {
      assert CONTENT(3).names[0] == 2 && 2 !in c;
    }
  }

  /** From an empty repository: a push checked before the collection, on a copy never rebuilt, and
      committed after the repository was forgotten and loaded again. The check is not repeated, the
      command is accepted, and the write loses what 3 links to. */
  lemma AReloadThatLosesAnObject(rules: Rules)
    ensures var c, moves := Copy(Fold([P10], IDX3), 0), [Reloaded(Fold([P12], IDX3))];
            var now := After(c, moves);
            var cmds, g := [Creates(TAG_C, 3)], GroundsOf(now.ix, LATE, rules);
            && Fair(c, moves) && Connected(LATE, Known(c.ix)) && c.ix == IndexOf(W4)
            && now.ix == IndexOf(LEAN) && now.gen == c.gen
            && !Trusted(now.ix, now.gen, Some(c.gen), LATE)
            && Judged(cmds, LEAN.m.refs, g, [None])
            && BROKEN == Written(LEAN, Pushed(LEAN.m, Job(cmds, Some(P11), LATE, false), [None], g, 0))
    ensures Run(CONTENT, LEANER, LEANING) && LEANER[0] == START && LEANER[4] == W4 && LEANER[5] == LEAN
    ensures Inv(CONTENT, LEAN) && !Safe(CONTENT, BROKEN)
  {
    LeanIsReached();
    LeanIsSound();
    ReloadForgets();
    LastTagIsAccepted(rules);
    hide Fold, Inv, Safe, Judged, Updated, DroppedBy, GroundsOf, Connected, Known, Trusted, Run;
    OneMove(Copy(Fold([P10], IDX3), 0), Reloaded(Fold([P12], IDX3)));
    assert [P12] + [P11] == [P12, P11];
    assert Capped(LEAN.m.dropped + []) == [];
  }

  lemma ReloadForgets()
    ensures Connected(LATE, Known(Fold([P10], IDX3)))
    ensures !Trusted(Fold([P12], IDX3), 0, Some(0), LATE)
  {
    LeanHolds();
    KnownIsHeldOf([P10], IDX3);
    KnownIsHeldOf([P12], IDX3);
    LateNeedsTwo();
    hide Fold, Held, Known, Connected;
  }

  lemma KnownIsHeldOf(packs: seq<PackMeta>, idx: map<PackId, seq<Entry>>)
    ensures Known(Fold(packs, idx)) == Held(packs, idx)
  {
    hide Fold, Held;
    FoldHolds(packs, idx);
  }

  lemma LateNeedsTwo()
    ensures Connected(LATE, {1, 2}) && !Connected(LATE, {1})
  {
    IdSets();
    assert LATE[0].children[0] == 2 && LATE[0] in LATE;
  }

  lemma LastTagIsAccepted(rules: Rules)
    ensures var cmds, g := [Creates(TAG_C, 3)], GroundsOf(Fold([P12], IDX3), LATE, rules);
            && Judged(cmds, MAIN, g, [None]) && Updated(cmds, [None], MAIN, 1) == MAIN[TAG_C := 3]
            && DroppedBy(cmds, [None], MAIN, g, 0, 1) == []
  {
    TagIsNew();
    IdSets();
    FoldWf([P12], IDX3);
    hide Fold, Wf, ValidRefname, Clashes, KindOf, Judged, Updated, DroppedBy;
    NewTagIsAccepted([Creates(TAG_C, 3)], MAIN, GroundsOf(Fold([P12], IDX3), LATE, rules));
  }

  lemma TagIsNew()
    ensures ValidRefname(TAG_C) && !("refs/heads/" <= TAG_C) && TAG_C !in MAIN && forall k :: k in MAIN ==> !Clashes(TAG_C, k)
  {
    TagNames();
    hide ValidRefname, Clashes;
  }
}
