/** The two small rewrites of the manifest that race a collection: depot/src/gc.rs, `prune`,
    and depot/src/api.rs, `restore`. */
module Rewrites {
  import opened Common
  import opened Git
  import opened ObjectIndex
  import opened World
  import opened Runs
  import opened Storage
  import opened Servers
  import opened Collector
  import opened RefUpdates

  predicate AnyExpired(dropped: seq<Dropped>, cutoff: nat) {
    exists i :: 0 <= i < |dropped| && dropped[i].at <= cutoff
  }

  /** A write that keeps the packs, and what this server makes of the answer. */
  method WriteSamePacks(s: Server, written: Manifest, ghost a: Action) returns (r: Attempt)
    requires s.Valid() && written.packs == s.m.packs
    requires Matches(s.etag, s.store.w) ==> !s.stale
    requires Matches(s.etag, s.store.w) ==>
               Enabled(s.store.content, s.store.w, a) && Do(s.store.content, s.store.w, a) == Written(s.store.w, written)
    modifies s, s.store
    ensures s.Valid() && Reaches(s.store.content, old(s.store.w), s.store.w)
    ensures r.Landed? ==> s.m == s.store.w.m == written.(rev := old(s.m).rev + 1) && s.Exact(s.store.w)
    ensures s.ix == old(s.ix)
    ensures !r.Landed? ==> s.m == old(s.m) && s.refs == old(s.refs)
    ensures !r.Done? && (r.Failed? ==> r.why.Storage?)
  {
    hide Fold, FoldOk, Closure, Recorded, Stored, Enabled, Do, Reaches;
    ghost var w := s.store.w;
    var saved, landed := s.store.SaveManifest(written, s.etag, a);
    ReachesIsLater(s.store.content, w, s.store.w);
    s.SyncLasts(w, s.store.w);
    match saved
    case SavedOk(t) =>
      s.MatchIsSame(w);
      KeepsExact(s, w, written);
      s.Adopt(written.(rev := s.m.rev + 1), t);
      r := Landed;
    case Conflict => r := Retry;
    case Unknown => r := Failed(Storage);
  }

  lemma KeepsExact(s: Server, w: World, written: Manifest)
    requires s.InSync(w) && s.m == w.m && s.Exact(w) && Later(w, s.store.w) && written.packs == s.m.packs
    requires s.store.w.m == written.(rev := w.m.rev + 1)
    ensures s.Exact(s.store.w)
  {
    FoldStable(s.m.packs, w.idx, s.store.w.idx);
  }

  method TryPrune(s: Server, cutoff: nat, again: bool) returns (r: Attempt)
    requires s.Valid()
    modifies s, s.store
    ensures s.Valid() && Reaches(s.store.content, old(s.store.w), s.store.w)
    ensures r.Landed? || r.Done? ==> !AnyExpired(s.m.dropped, cutoff)
    ensures r.Failed? ==> r.why.Storage?
  {
    hide Fold, FoldOk, Closure, Recorded, Stored, Reaches;
    var ok := Look(s, again);
    if !ok {
      return Failed(Storage);
    }
    if !AnyExpired(s.m.dropped, cutoff) {
      return Done;
    }
    ghost var w := s.store.w;
    var written := s.m.(dropped := Kept(s.m.dropped, cutoff));
    NoneExpired(s.m.dropped, cutoff);
    if Matches(s.etag, w) { s.MatchIsSame(w); }
    r := WriteSamePacks(s, written, Action.Prune(cutoff));
    ReachesOn(s.store.content, old(s.store.w), w, s.store.w);
  }

  lemma NoneExpired(dropped: seq<Dropped>, cutoff: nat)
    ensures !AnyExpired(Kept(dropped, cutoff), cutoff)
  {
    var kept := Kept(dropped, cutoff);
    forall i | 0 <= i < |kept| ensures kept[i].at > cutoff { assert kept[i] in kept; }
  }

  /** The start of an attempt: a retry looks at storage again; either way the other servers
      may act before the write goes out. */
  method Look(s: Server, again: bool) returns (ok: bool)
    requires s.Valid()
    modifies s, s.store
    ensures s.Valid() && Reaches(s.store.content, old(s.store.w), s.store.w)
  {
    hide Fold, FoldOk, Closure, Recorded, Stored, Reaches;
    ok := true;
    ReachesSelf(s.store.content, s.store.w);
    if again {
      ok := s.Revalidate(true, true);
    }
    ghost var w := s.store.w;
    s.Others();
    ReachesOn(s.store.content, old(s.store.w), w, s.store.w);
  }

  /** `prune`: on success no expired dropped value is left in this server's copy. */
  method Prune(s: Server, cutoff: nat) returns (r: Option<Failure>)
    requires s.Valid()
    modifies s, s.store
    ensures s.Valid() && Reaches(s.store.content, old(s.store.w), s.store.w)
    ensures r == None ==> !AnyExpired(s.m.dropped, cutoff)
  {
    hide Fold, FoldOk, Closure, Recorded, Stored, Reaches;
    ReachesSelf(s.store.content, s.store.w);
    var attempt := 0;
    while attempt < ATTEMPTS
      invariant s.Valid() && Reaches(s.store.content, old(s.store.w), s.store.w)
    {
      ghost var w := s.store.w;
      var did := TryPrune(s, cutoff, attempt > 0);
      ReachesOn(s.store.content, old(s.store.w), w, s.store.w);
      match did {
        case Landed => return None;
        case Done => return None;
        case Failed(why) => return Some(why);
        case Retry =>
      }
      attempt := attempt + 1;
    }
    r := Some(Busy);
  }

  datatype Restored = RestoredOk | NotStored | HistoryIncomplete | RefExists | Refused | ManifestBusy | Unavailable

  datatype RestoreAttempt = Answer(r: Restored) | Again

  /** The command a restore is judged as: a new ref. */
  function AsCommand(name: string, oid: Oid): Command {
    Command(name, None, Some(oid))
  }

  /** Whether the object and everything it reaches are stored. */
  method LooksStored(s: Server, oid: Oid) returns (r: Restored)
    requires s.Valid()
    ensures r == RestoredOk <==> oid in s.ix.oids && forall i :: i in Closure(s.ix, Tips(s.ix, {oid})) ==> Whole(s.ix, i)
    ensures r == NotStored <==> oid !in s.ix.oids
    ensures r == HistoryIncomplete <==>
            oid in s.ix.oids && exists i :: i in Closure(s.ix, Tips(s.ix, {oid})) && i < |s.ix.objs| && !Whole(s.ix, i)
  {
    hide Closure, Fold, FoldOk, Recorded, Stored;
    var at := Position(s.ix.oids, oid);
    if at.None? {
      return NotStored;
    }
    var all := ComputeClosure(s.ix, [at.value]);
    OneTip(s.ix, oid, at.value);
    if i :| i in all && Misses(s.ix.objs[i].kids) {
      assert !Whole(s.ix, i);
      return HistoryIncomplete;
    }
    forall i | i in all ensures Whole(s.ix, i) {
      assert !Misses(s.ix.objs[i].kids);
    }
    r := RestoredOk;
  }

  lemma OneTip(ix: Index, oid: Oid, at: nat)
    requires Wf(ix) && Position(ix.oids, oid) == Some(at)
    ensures Elems([at]) == Tips(ix, {oid})
  {
  }

  /** The checks of one attempt of `restore`: the object and everything it reaches are stored, and
      `judge` takes the new ref, so that it is well named, free or already there, and beside no
      ref git cannot store it with. */
  method Examine(s: Server, name: string, oid: Oid, rules: Rules) returns (r: Restored)
    requires s.Valid()
    ensures r == RestoredOk <==>
            && oid in s.ix.oids
            && (forall i :: i in Closure(s.ix, Tips(s.ix, {oid})) ==> Whole(s.ix, i))
            && Accepted([AsCommand(name, oid)], s.refs, GroundsOf(s.ix, [], rules), 0)
    ensures r == RestoredOk ==> ValidRefname(name) && (name in s.refs ==> s.refs[name] == oid)
    ensures r == RestoredOk ==> forall k :: k in s.refs ==> !Clashes(name, k)
    ensures r == NotStored <==> oid !in s.ix.oids
    ensures r == HistoryIncomplete ==> exists i :: i in Closure(s.ix, Tips(s.ix, {oid})) && i < |s.ix.objs| && !Whole(s.ix, i)
    ensures r == RefExists ==> name in s.refs && s.refs[name] != oid
    ensures r != ManifestBusy && r != Unavailable
  {
    hide Accepted, Judged, RefUpdates.Check, ValidRefname, KindOf, Closure, Fold, FoldOk, Recorded, Stored, Tips, Clashes, Whole;
    r := LooksStored(s, oid);
    if r != RestoredOk {
      return;
    }
    var cmds, g := [AsCommand(name, oid)], GroundsOf(s.ix, [], rules);
    var out := Judge(cmds, s.refs, g);
    JudgedOne(cmds, s.refs, g, out);
    if out[0] == Some(StaleInfo) {
      StaleIsTaken(name, oid, s.refs, g);
      return RefExists;
    }
    if out[0].Some? {
      return Refused;
    }
    AcceptedIsFree(name, oid, s.refs, g);
  }

  lemma JudgedOne(cmds: seq<Command>, refs: Refs, g: Grounds, out: seq<Option<Refusal>>)
    requires |cmds| == 1 && Judged(cmds, refs, g, out)
    ensures |out| == 1 && (out[0] == None <==> Accepted(cmds, refs, g, 0))
  {
  }

  /** An accepted restore leaves no other value lost: the ref was free, or held the object. */
  lemma AcceptedIsFree(name: string, oid: Oid, refs: Refs, g: Grounds)
    requires Accepted([AsCommand(name, oid)], refs, g, 0)
    ensures name in refs ==> refs[name] == oid
    ensures ValidRefname(name) && forall k :: k in refs ==> !Clashes(name, k)
  {
    hide ValidRefname, Clashes;
    var cmds, all := [AsCommand(name, oid)], Checks([AsCommand(name, oid)], refs, g);
    assert After(cmds, all, refs, 0) == refs;
    assert After(cmds, all, refs, 1) == refs[name := oid];
  }

  lemma StaleIsTaken(name: string, oid: Oid, refs: Refs, g: Grounds)
    requires RefUpdates.Check(AsCommand(name, oid), Current(refs, name), g) == Some(StaleInfo)
    ensures name in refs && refs[name] != oid
  {
    hide ValidRefname;
  }

  method TryRestore(s: Server, name: string, oid: Oid, rules: Rules, again: bool) returns (r: RestoreAttempt)
    requires s.Valid()
    modifies s, s.store
    ensures s.Valid() && Reaches(s.store.content, old(s.store.w), s.store.w)
    ensures r == Answer(RestoredOk) ==> ValidRefname(name) && name in s.refs && s.refs[name] == oid && s.m == s.store.w.m
    ensures r == Answer(RestoredOk) ==> Complete(s.store.content, oid, Objects(s.store.w))
    ensures r != Answer(ManifestBusy)
  {
    hide ValidRefname, Accepted, Fold, FoldOk, Closure, Recorded, Stored, Reaches, Clashes, Tips, Whole, Complete, Enabled, Do;
    var ok := Look(s, again);
    if !ok {
      return Answer(Unavailable);
    }
    var judged := Examine(s, name, oid, rules);
    if judged != RestoredOk {
      return Answer(judged);
    }
    ghost var w := s.store.w;
    var written := s.m.(refs := s.m.refs[name := oid]);
    RestoreIsEnabled(s, name, oid);
    var did := WriteSamePacks(s, written, Action.Restore(name, oid));
    ReachesOn(s.store.content, old(s.store.w), w, s.store.w);
    match did
    case Landed =>
      RestoredIsComplete(s, oid);
      r := Answer(RestoredOk);
    case Retry => r := Again;
    case _ => r := Answer(Unavailable);
  }

  /** With nothing missing from an exact index, the object's whole history is stored. */
  lemma RestoredIsComplete(s: Server, oid: Oid)
    requires s.Valid() && s.m == s.store.w.m && s.Exact(s.store.w) && oid in s.ix.oids
    requires forall i :: i in Closure(s.ix, Tips(s.ix, {oid})) ==> Whole(s.ix, i)
    ensures Complete(s.store.content, oid, Objects(s.store.w))
  {
    var w := s.store.w;
    AddressedAll(w, s.store.content);
    hide Fold, FoldOk, Stored, Recorded, TrueIndex, AllAddressed, Whole;
    FoldIsTrue(w.m.packs, w.idx, s.store.content);
    FoldHolds(w.m.packs, w.idx);
    WholeHistory(s.ix, s.store.content, oid, Objects(w));
  }

  lemma AddressedAll(w: World, content: Contents)
    requires Stored(content, w)
    ensures AllAddressed(w.m.packs, w.idx, content)
  {
  }

  lemma WholeHistory(ix: Index, content: Contents, oid: Oid, held: set<Oid>)
    requires TrueIndex(ix, content) && oid in ix.oids && forall o :: o in held <==> o in ix.oids
    requires forall i :: i in Closure(ix, Tips(ix, {oid})) ==> Whole(ix, i)
    ensures Complete(content, oid, held)
  {
    var all := Closure(ix, Tips(ix, {oid}));
    NamesClosed(content, ix, all);
    hide Closure;
    assert Position(ix.oids, oid).value in all;
    assert oid in Names(ix, all);
  }

  lemma RestoreIsEnabled(s: Server, name: string, oid: Oid)
    requires s.Valid() && oid in s.ix.oids
    requires forall i :: i in Closure(s.ix, Tips(s.ix, {oid})) ==> Whole(s.ix, i)
    ensures Matches(s.etag, s.store.w) ==> !s.stale
    ensures var a, w := Action.Restore(name, oid), s.store.w;
            Matches(s.etag, w) ==>
              Enabled(s.store.content, w, a) && Do(s.store.content, w, a) == Written(w, s.m.(refs := s.m.refs[name := oid]))
  {
    if Matches(s.etag, s.store.w) {
      s.MatchIsSame(s.store.w);
    }
  }

  /** `restore`: a success leaves the ref on the object, with everything it reaches stored. */
  method Restore(s: Server, name: string, oid: Oid, rules: Rules) returns (r: Restored)
    requires s.Valid()
    modifies s, s.store
    ensures s.Valid() && Reaches(s.store.content, old(s.store.w), s.store.w)
    ensures r == RestoredOk ==> ValidRefname(name) && name in s.refs && s.refs[name] == oid && s.m == s.store.w.m
    ensures r == RestoredOk ==> Complete(s.store.content, oid, Objects(s.store.w))
  {
    hide Fold, FoldOk, Closure, Recorded, Stored, Reaches, Complete, ValidRefname;
    ReachesSelf(s.store.content, s.store.w);
    var attempt := 0;
    while attempt < ATTEMPTS
      invariant s.Valid() && Reaches(s.store.content, old(s.store.w), s.store.w)
    {
      ghost var w := s.store.w;
      var did := TryRestore(s, name, oid, rules, attempt > 0);
      ReachesOn(s.store.content, old(s.store.w), w, s.store.w);
      if did.Answer? {
        return did.r;
      }
      attempt := attempt + 1;
    }
    r := ManifestBusy;
  }
}
