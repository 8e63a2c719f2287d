/** depot/src/maint.rs, `sweep`: the packs retired long ago are deleted, and then their records are
    dropped from the manifest. */
module Sweeps {
  import opened Common
  import opened Git
  import opened ObjectIndex
  import opened World
  import opened Runs
  import opened Storage
  import opened Servers
  import opened Collector
  import opened Rewrites

  /** What is due: retired by the cutoff, not served, and read by no fetch in flight here. */
  function Due(m: Manifest, cutoff: nat, held: set<PackId>): (r: set<PackId>)
    ensures forall id :: id in r <==>
                           && id !in held && !Serves(m, id)
                           && exists x :: x in m.retired && x.id == id && x.at <= cutoff
    ensures forall id :: id in r ==> IsRetired(m, id)
  {
    set x | x in m.retired && x.at <= cutoff && !Serves(m, x.id) && x.id !in held :: x.id
  }

  /** `delete_pack` of each; the first failure ends the sweep. */
  method DeleteAll(store: Store, old_: set<PackId>) returns (ok: bool, deleted: set<PackId>)
    modifies store`clock
    ensures deleted <= old_ && (ok ==> deleted == old_)
  {
    var left := old_;
    ok, deleted := true, {};
    while left != {}
      invariant left <= old_ && deleted == old_ - left
      decreases |left|
    {
      var id :| id in left;
      store.clock := store.clock + 1;
      if !store.net(store.clock).delivered {
        return false, deleted;
      }
      left, deleted := left - {id}, deleted + {id};
    }
  }

  lemma WithoutLength(retired: seq<Retired>, ids: set<PackId>)
    ensures |Without(retired, ids)| <= |retired|
    ensures |Without(retired, ids)| == |retired| <==> forall x :: x in retired ==> x.id !in ids
  {
    if retired != [] {
      WithoutLength(retired[1..], ids);
      assert retired == [retired[0]] + retired[1..];
    }
  }

  /** One attempt to drop the records. */
  method TryForget(s: Server, ids: set<PackId>, again: bool) returns (r: Attempt)
    requires s.Valid()
    modifies s, s.store
    ensures s.Valid() && Reaches(s.store.content, old(s.store.w), s.store.w)
    ensures r.Landed? || r.Done? ==> forall x :: x in s.m.retired ==> x.id !in ids
    ensures r.Failed? ==> r.why.Storage?
  {
    hide Fold, FoldOk, Closure, Recorded, Stored, Reaches, Without;
    var ok := Look(s, again);
    if !ok {
      return Failed(Storage);
    }
    ghost var w := s.store.w;
    var written := s.m.(retired := Without(s.m.retired, ids));
    WithoutLength(s.m.retired, ids);
    if |written.retired| == |s.m.retired| {
      return Done;
    }
    if Matches(s.etag, w) { s.MatchIsSame(w); }
    r := WriteSamePacks(s, written, Action.Forget(ids));
    ReachesOn(s.store.content, old(s.store.w), w, s.store.w);
  }

  /** `sweep`. Each pack it deletes was, in a manifest stored on the way, retired by the cutoff and
      not served, and no fetch here reads it; the served packs are left alone. */
  method Sweep(s: Server, cutoff: nat, held: set<PackId>)
    returns (r: Option<Failure>, deleted: set<PackId>, ghost seen: World)
    requires s.Valid()
    modifies s, s.store
    ensures s.Valid() && Reaches(s.store.content, old(s.store.w), seen) && Reaches(s.store.content, seen, s.store.w)
    ensures deleted <= Due(seen.m, cutoff, held)
    ensures forall id :: id in deleted ==> IsRetired(seen.m, id)
    ensures r == None && old(s.m).retired != [] ==> deleted == Due(seen.m, cutoff, held)
  {
    hide Fold, FoldOk, Closure, Recorded, Stored, Reaches, Without;
    deleted, seen := {}, s.store.w;
    ReachesSelf(s.store.content, s.store.w);
    if s.m.retired == [] {
      return None, deleted, seen;
    }
    var ok := s.Revalidate(true, true);
    seen := s.store.w;
    ReachesSelf(s.store.content, seen);
    if !ok {
      return Some(Storage), deleted, seen;
    }
    var old_ := Due(s.m, cutoff, held);
    if old_ == {} {
      return None, deleted, seen;
    }
    ok, deleted := DeleteAll(s.store, old_);
    if !ok {
      return Some(Storage), deleted, seen;
    }
    r := ForgetAll(s, old_);
  }

  /** The records are dropped, unless the manifest stayed busy: then the next sweep finds them. */
  method ForgetAll(s: Server, ids: set<PackId>) returns (r: Option<Failure>)
    requires s.Valid()
    modifies s, s.store
    ensures s.Valid() && Reaches(s.store.content, old(s.store.w), s.store.w)
    ensures r.Some? ==> r.value.Storage?
  {
    hide Fold, FoldOk, Closure, Recorded, Stored, Reaches;
    ReachesSelf(s.store.content, s.store.w);
    var attempt := 0;
    while attempt < ATTEMPTS
      invariant s.Valid() && Reaches(s.store.content, old(s.store.w), s.store.w)
    {
      ghost var w := s.store.w;
      var did := TryForget(s, ids, attempt > 0);
      ReachesOn(s.store.content, old(s.store.w), w, s.store.w);
      match did {
        case Landed => return None;
        case Done => return None;
        case Failed(why) => return Some(why);
        case Retry =>
      }
      attempt := attempt + 1;
    }
    r := None;
  }
}
