/** depot/src/gc.rs: planning a collection, writing its pack and committing it, with other
    servers acting in between. */
module Collector {
  import opened Common
  import opened Git
  import opened ObjectIndex
  import opened World
  import opened Runs
  import opened Storage
  import opened Servers
  import opened SetSize

  const ATTEMPTS := 8

  datatype Job = Job(
    newId: PackId, sources: seq<PackMeta>, snapshot: seq<PackInfo>, snapLen: nat, keep: set<nat>, cutoff: nat)

  datatype Failure = Storage | Incomplete | PacksChanged | Reindexed | LeftOut(oid: Oid) | Busy

  /** The index a collection was planned against. */
  ghost function PlannedIndex(c: Job): Index
    requires |c.snapshot| > 0
  {
    c.snapshot[|c.snapshot| - 1].upto
  }

  ghost predicate Planned(c: Job, content: Contents, w: World) {
    && |c.snapshot| == |c.sources| > 0
    && var pix := PlannedIndex(c);
       && TrueIndex(pix, content) && |pix.oids| == c.snapLen
       && pix == Fold(c.sources, w.idx) && (forall p :: p in c.sources ==> p.id in w.idx)
       && c.keep <= Positions(pix) && ClosedIn(pix, c.keep)
       && forall i :: i in c.keep ==> Whole(pix, i)
  }

  ghost function KeptIds(c: Job): set<Oid>
    requires |c.snapshot| > 0 && Wf(PlannedIndex(c)) && c.keep <= Positions(PlannedIndex(c))
  {
    Names(PlannedIndex(c), c.keep)
  }

  /** `extends`: nothing rebuilt the index since the plan. */
  predicate Extends(ix: Index, recs: seq<PackInfo>, c: Job) {
    && |ix.oids| >= c.snapLen
    && |recs| >= |c.snapshot|
    && forall i :: 0 <= i < |c.snapshot| ==> recs[i] == c.snapshot[i]
  }

  /** It is true only if every planned position still names the same object with the same
      links: the index begins with the one planned against. */
  lemma ExtendsKeepsPositions(ix: Index, recs: seq<PackInfo>, c: Job)
    requires Recorded(ix, recs) && |c.snapshot| > 0 && Extends(ix, recs, c)
    ensures GrownFrom(PlannedIndex(c), ix)
  {
    assert recs[|c.snapshot| - 1] == c.snapshot[|c.snapshot| - 1];
  }

  lemma TipsAre(ix: Index, ids: set<Oid>)
    requires Wf(ix)
    ensures forall i :: i in Tips(ix, ids) <==> 0 <= i < |ix.oids| && ix.oids[i] in ids
  {
  }

  method RefIds(refs: map<string, Oid>) returns (ids: seq<Oid>)
    ensures forall o :: o in ids <==> o in refs.Values
  {
    ids := [];
    var names := refs.Keys;
    while names != {}
      invariant names <= refs.Keys
      invariant forall o :: o in ids <==> exists n :: n in refs.Keys - names && refs[n] == o
      decreases |names|
    {
      var n :| n in names;
      ids := ids + [refs[n]];
      names := names - {n};
    }
  }

  /** `filter_map(lookup)`: ids the index does not know are passed over. */
  function LookupAll(oids: seq<Oid>, ids: seq<Oid>): (r: seq<nat>)
    ensures forall i :: i in r ==> 0 <= i < |oids| && oids[i] in ids
    ensures forall o :: o in ids && o in oids ==> Position(oids, o).value in r
  {
    if ids == [] then []
    else
      var p, rest := Position(oids, ids[0]), LookupAll(oids, ids[1..]);
      assert ids == [ids[0]] + ids[1..];
      if p.Some? then [p.value] + rest else rest
  }

  /** `tips`: the positions of the refs and of the dropped values given. */
  method TipsOf(ix: Index, refs: map<string, Oid>, dropped: seq<Dropped>) returns (tips: seq<nat>)
    requires Wf(ix)
    ensures Elems(tips) == Tips(ix, refs.Values + DroppedIds(dropped))
    ensures forall t :: t in tips ==> t < |ix.objs|
  {
    var ids := RefIds(refs);
    var all := ids + seq(|dropped|, i requires 0 <= i < |dropped| => dropped[i].id);
    assert forall o :: o in all <==> o in refs.Values || o in DroppedIds(dropped) by {
      forall o | o in DroppedIds(dropped) ensures o in all {
        var d :| d in dropped && d.id == o;
        var i :| 0 <= i < |dropped| && dropped[i] == d;
        assert all[|ids| + i] == o;
      }
    }
    tips := LookupAll(ix.oids, all);
    forall i | i in Tips(ix, refs.Values + DroppedIds(dropped)) ensures i in tips {
      assert Position(ix.oids, ix.oids[i]).value == i;
    }
    TipsAre(ix, refs.Values + DroppedIds(dropped));
  }

  // --- planning -------------------------------------------------------------------------

  predicate Misses(kids: seq<Option<nat>>) {
    exists j :: 0 <= j < |kids| && kids[j].None?
  }

  /** `start`. A plan keeps everything the refs and the live dropped values reach, is closed
      under links, and is refused when a kept object links to one the index does not hold. */
  method Start(s: Server, cutoff: nat, newId: PackId) returns (r: Result<Option<Job>, Failure>)
    requires s.Valid()
    modifies s, s.store
    ensures s.Valid() && Reaches(s.store.content, old(s.store.w), s.store.w)
    ensures r.Ok? && r.value.Some? ==>
              var c := r.value.value;
              && c.newId == newId && c.cutoff == cutoff && c.sources == s.m.packs == s.store.w.m.packs
              && Planned(c, s.store.content, s.store.w)
              && c.keep == Needed(s.ix, s.m, cutoff)
    ensures r.Ok? && r.value.None? && s.m.packs != [] ==>
              Needed(s.ix, s.m, cutoff) == Positions(s.ix) && |s.m.packs| == 1 && Kept(s.m.dropped, cutoff) == s.m.dropped
    ensures r == Err(Incomplete) ==> exists i :: i in Needed(s.ix, s.m, cutoff) && i < |s.ix.objs| && !Whole(s.ix, i)
  {
    var current := s.Revalidate(true, true);
    if !current {
      return Err(Storage);
    }
    r := PlanNow(s, cutoff, newId);
  }

  method PlanNow(s: Server, cutoff: nat, newId: PackId) returns (r: Result<Option<Job>, Failure>)
    requires s.Valid() && s.m == s.store.w.m && s.Exact(s.store.w)
    ensures r.Ok? && r.value.Some? ==>
              var c := r.value.value;
              && c.newId == newId && c.cutoff == cutoff && c.sources == s.m.packs
              && Planned(c, s.store.content, s.store.w)
              && c.keep == Needed(s.ix, s.m, cutoff)
    ensures r.Ok? && r.value.None? && s.m.packs != [] ==>
              Needed(s.ix, s.m, cutoff) == Positions(s.ix) && |s.m.packs| == 1 && Kept(s.m.dropped, cutoff) == s.m.dropped
    ensures r == Err(Incomplete) ==> exists i :: i in Needed(s.ix, s.m, cutoff) && i < |s.ix.objs| && !Whole(s.ix, i)
  {
    if s.m.packs == [] {
      return Ok(None);
    }
    var kept := Kept(s.m.dropped, cutoff);
    var tips := TipsOf(s.ix, s.refs, kept);
    var keep := ComputeClosure(s.ix, tips);
    assert keep == Needed(s.ix, s.m, cutoff);
    if exists i :: i in keep && Misses(s.ix.objs[i].kids) {
      return Err(Incomplete);
    }
    KeptIsAll(s.m.dropped, cutoff);
    SubsetSize(keep, Positions(s.ix));
    if |keep| == |s.ix.oids| && |s.m.packs| == 1 && |kept| == |s.m.dropped| {
      return Ok(None);
    }
    var c := Job(newId, s.m.packs, s.recs, |s.ix.oids|, keep, cutoff);
    PlanIsSound(s, c);
    r := Ok(Some(c));
  }

  lemma PlanIsSound(s: Server, c: Job)
    requires s.Valid() && s.m == s.store.w.m && s.Exact(s.store.w) && s.m.packs != []
    requires c.sources == s.m.packs && c.snapshot == s.recs && c.snapLen == |s.ix.oids|
    requires c.keep <= Positions(s.ix) && ClosedIn(s.ix, c.keep)
    requires forall i :: i in c.keep ==> !Misses(s.ix.objs[i].kids)
    ensures Planned(c, s.store.content, s.store.w)
  {
    FoldWf(s.m.packs, s.store.w.idx);
    FoldIsTrue(s.m.packs, s.store.w.idx, s.store.content);
    assert s.ix == PlannedIndex(c);
    forall i | i in c.keep ensures Whole(s.ix, i) {
      assert !Misses(s.ix.objs[i].kids);
    }
  }

  lemma {:induction false} KeptIsAll(dropped: seq<Dropped>, cutoff: nat)
    ensures |Kept(dropped, cutoff)| == |dropped| ==> Kept(dropped, cutoff) == dropped
  {
    if dropped != [] {
      KeptIsAll(dropped[1..], cutoff);
    }
  }

  // --- the pack written -----------------------------------------------------------------

  /** Where the pack generator put an object, how it stored it, and the base it stored it against. */
  datatype Placed = Placed(at: nat, offset: nat, stored: nat, base: Option<nat>)

  /** A pack begins with a header and ends with a checksum. */
  const HEADER := 12
  const CHECKSUM := 20

  ghost predicate Places(placed: seq<Placed>, i: nat) {
    exists p :: p in placed && p.at == i
  }

  /** The generator's promise: exactly the kept objects, each against a kept base if any, one after
      the other from the header to the checksum. */
  ghost predicate Generated(placed: seq<Placed>, keep: set<nat>, total: nat) {
    && (forall i :: i in keep <==> Places(placed, i))
    && (forall p :: p in placed && p.base.Some? ==> p.base.value in keep && p.base.value != p.at)
    && total >= HEADER + CHECKSUM
    && (forall n :: 0 <= n < |placed| ==> HEADER <= placed[n].offset < total - CHECKSUM)
    && forall n :: 0 < n < |placed| ==> placed[n - 1].offset < placed[n].offset
  }

  /** Where the `n`-th object placed ends. */
  function EndOf(placed: seq<Placed>, n: nat, total: nat): int
    requires n < |placed|
  {
    if n + 1 < |placed| then placed[n + 1].offset else total - CHECKSUM
  }

  function EntryOf(ix: Index, p: Placed, end: int): Option<Entry>
    requires Wf(ix) && p.at < |ix.objs| && (p.base.Some? ==> p.base.value < |ix.objs|) && p.offset <= end
  {
    var o := ix.objs[p.at];
    if Misses(o.kids) then None
    else Some(Entry(ix.oids[p.at], p.offset, end - p.offset, p.stored, o.kind, o.size,
                    if p.base.Some? then Some(ix.oids[p.base.value]) else None, o.time,
                    seq(|o.kids|, j requires 0 <= j < |o.kids| =>
                          if o.kids[j].Some? then ix.oids[o.kids[j].value] else 0)))
  }

  /** `entries`: the new pack's index, from what the repository's index knows. */
  method Entries(ix: Index, placed: seq<Placed>, total: nat) returns (r: Option<seq<Entry>>)
    requires Wf(ix) && Fit(ix, placed, total)
    ensures r.Some? ==> EntriesFor(ix, placed, total, r.value)
    ensures r.None? ==> exists p :: p in placed && !Whole(ix, p.at)
  {
    var out, k := [], 0;
    while k < |placed|
      invariant k <= |placed| && |out| == k
      invariant forall j :: 0 <= j < k ==> EntryOf(ix, placed[j], EndOf(placed, j, total)) == Some(out[j])
    {
      assert placed[k] in placed;
      var e := EntryOf(ix, placed[k], EndOf(placed, k, total));
      if e.None? {
        return None;
      }
      out := out + [e.value];
      k := k + 1;
    }
    r := Some(out);
  }

  /** What was placed is in the index, and within the pack. */
  ghost predicate Fit(ix: Index, placed: seq<Placed>, total: nat) {
    && (forall p :: p in placed ==> p.at < |ix.objs| && (p.base.Some? ==> p.base.value < |ix.objs|))
    && forall n :: 0 <= n < |placed| ==> placed[n].offset <= EndOf(placed, n, total)
  }

  ghost predicate EntriesFor(ix: Index, placed: seq<Placed>, total: nat, out: seq<Entry>) {
    && Wf(ix) && |out| == |placed| && Fit(ix, placed, total)
    && forall k :: 0 <= k < |placed| ==> (assert placed[k] in placed; EntryOf(ix, placed[k], EndOf(placed, k, total)) == Some(out[k]))
  }

  /** The entry says of the object what the repository's index said of it, and where it is now. */
  lemma EntryIsTrue(ix: Index, pix: Index, content: Contents, p: Placed, end: int, e: Entry)
    requires TrueIndex(pix, content) && GrownFrom(pix, ix) && Wf(ix)
    requires p.at < |pix.objs| && (p.base.Some? ==> p.base.value < |ix.objs|) && p.offset <= end
    requires EntryOf(ix, p, end) == Some(e)
    ensures e.oid == pix.oids[p.at] && ToldBy(e) == content(e.oid)
    ensures e.kind == pix.objs[p.at].kind && e.size == pix.objs[p.at].size && e.time == pix.objs[p.at].time
    ensures e.offset == p.offset && e.offset + e.len == end && e.stored == p.stored
  {
    assert ix.objs[p.at] == pix.objs[p.at] && ix.oids[p.at] == pix.oids[p.at];
    assert ObjTrue(pix.oids, pix.objs[p.at], content(pix.oids[p.at]));
  }

  /** The entries fill the pack from its header to its checksum, with no gap and no overlap. */
  ghost predicate Fills(out: seq<Entry>, total: nat) {
    forall k :: 0 <= k < |out| ==>
                  out[k].len > 0 && out[k].offset + out[k].len == if k + 1 < |out| then out[k + 1].offset else total - CHECKSUM
  }

  /** What the entries of a generated pack are: addressed by content, standing alone, holding exactly
      the kept ids, and filling the pack. */
  lemma EntriesAreKept(ix: Index, pix: Index, content: Contents, placed: seq<Placed>, keep: set<nat>, total: nat, out: seq<Entry>)
    requires TrueIndex(pix, content) && GrownFrom(pix, ix)
    requires keep <= Positions(pix) && Generated(placed, keep, total)
    requires EntriesFor(ix, placed, total, out)
    ensures Addressed(out, content)
    ensures forall o :: o in Oids(out) <==> o in Names(pix, keep)
    ensures StandsAlone(out) && Fills(out, total)
  {
    hide EntryOf, GrownFrom, ObjTrue, EntriesFor, Generated, Fills, Addressed, StandsAlone, Names, Oids;
    EntriesAreTold(ix, pix, content, placed, keep, total, out);
    EntriesHoldAll(ix, pix, content, placed, keep, total, out);
    EntriesStandAlone(ix, pix, placed, keep, total, out);
    EntriesFill(ix, pix, content, placed, keep, total, out);
  }

  lemma EntriesAreTold(ix: Index, pix: Index, content: Contents, placed: seq<Placed>, keep: set<nat>, total: nat, out: seq<Entry>)
    requires TrueIndex(pix, content) && GrownFrom(pix, ix)
    requires keep <= Positions(pix) && Generated(placed, keep, total)
    requires EntriesFor(ix, placed, total, out)
    ensures Addressed(out, content) && forall o :: o in Oids(out) ==> o in Names(pix, keep)
  {
    hide EntryOf, GrownFrom, ObjTrue, EntriesFor, Generated;
    forall e | e in out ensures ToldBy(e) == content(e.oid) && e.oid in Names(pix, keep) {
      var k :| 0 <= k < |out| && out[k] == e;
      EntryAt(ix, pix, content, placed, keep, total, out, k);
    }
  }

  lemma EntryAt(ix: Index, pix: Index, content: Contents, placed: seq<Placed>, keep: set<nat>, total: nat, out: seq<Entry>, k: nat)
    requires TrueIndex(pix, content) && GrownFrom(pix, ix)
    requires keep <= Positions(pix) && Generated(placed, keep, total)
    requires EntriesFor(ix, placed, total, out) && k < |out|
    ensures k < |placed| && placed[k].at in keep && placed[k].at < |pix.objs|
    ensures ToldBy(out[k]) == content(out[k].oid) && out[k].oid == pix.oids[placed[k].at]
    ensures out[k].offset == placed[k].offset && out[k].offset + out[k].len == EndOf(placed, k, total)
  {
    assert placed[k] in placed;
    assert placed[k].at in keep;
    EntryIsTrue(ix, pix, content, placed[k], EndOf(placed, k, total), out[k]);
  }

  lemma EntriesFill(ix: Index, pix: Index, content: Contents, placed: seq<Placed>, keep: set<nat>, total: nat, out: seq<Entry>)
    requires TrueIndex(pix, content) && GrownFrom(pix, ix)
    requires keep <= Positions(pix) && Generated(placed, keep, total)
    requires EntriesFor(ix, placed, total, out)
    ensures Fills(out, total)
  {
    hide EntryOf, GrownFrom, KidsTrue, TrueIndex;
    forall k | 0 <= k < |out|
      ensures out[k].len > 0 && out[k].offset + out[k].len == if k + 1 < |out| then out[k + 1].offset else total - CHECKSUM
    {
      EntryAt(ix, pix, content, placed, keep, total, out, k);
      if k + 1 < |out| {
        EntryAt(ix, pix, content, placed, keep, total, out, k + 1);
        assert placed[k + 1 - 1].offset < placed[k + 1].offset;
      }
    }
  }

  lemma EntriesHoldAll(ix: Index, pix: Index, content: Contents, placed: seq<Placed>, keep: set<nat>, total: nat, out: seq<Entry>)
    requires TrueIndex(pix, content) && GrownFrom(pix, ix)
    requires keep <= Positions(pix) && Generated(placed, keep, total)
    requires EntriesFor(ix, placed, total, out)
    ensures forall o :: o in Names(pix, keep) ==> o in Oids(out)
  {
    hide EntryOf, GrownFrom, KidsTrue;
    forall o | o in Names(pix, keep) ensures o in Oids(out) {
      var i :| i in keep && pix.oids[i] == o;
      assert Places(placed, i);
      var p :| p in placed && p.at == i;
      var k :| 0 <= k < |placed| && placed[k] == p;
      EntryAt(ix, pix, content, placed, keep, total, out, k);
      assert Oids(out)[k] == o;
    }
  }

  lemma EntriesStandAlone(ix: Index, pix: Index, placed: seq<Placed>, keep: set<nat>, total: nat, out: seq<Entry>)
    requires Wf(pix) && GrownFrom(pix, ix) && EntriesFor(ix, placed, total, out)
    requires keep <= Positions(pix) && Generated(placed, keep, total)
    requires forall o :: o in Oids(out) <==> o in Names(pix, keep)
    ensures StandsAlone(out)
  {
    hide Names, Wf, GrownFrom, Generated, EntriesFor, StandsAlone;
    forall k | 0 <= k < |out| && out[k].base.Some? ensures out[k].base.value in Names(pix, keep) && out[k].base.value != out[k].oid {
      BaseStands(ix, pix, placed, keep, total, out, k);
    }
    AllStandAlone(out, Names(pix, keep));
  }

  lemma AllStandAlone(out: seq<Entry>, names: set<Oid>)
    requires forall o :: o in Oids(out) <==> o in names
    requires forall k :: 0 <= k < |out| && out[k].base.Some? ==> out[k].base.value in names && out[k].base.value != out[k].oid
    ensures StandsAlone(out)
  {
  }

  /** The base of an entry is the id of a kept object, and not its own. */
  lemma BaseStands(ix: Index, pix: Index, placed: seq<Placed>, keep: set<nat>, total: nat, out: seq<Entry>, k: nat)
    requires Wf(pix) && GrownFrom(pix, ix) && EntriesFor(ix, placed, total, out)
    requires keep <= Positions(pix) && Generated(placed, keep, total) && k < |out| && out[k].base.Some?
    ensures out[k].base.value in Names(pix, keep) && out[k].base.value != out[k].oid
  {
    hide Names;
    assert placed[k] in placed;
    var b := placed[k].base.value;
    assert b in keep && ix.oids[b] == pix.oids[b];
    assert placed[k].at in keep && ix.oids[placed[k].at] == pix.oids[placed[k].at];
  }

  /** The part of `step` that writes the pack and its index, once the generator is done. */
  method WritePack(s: Server, c: Job, placed: seq<Placed>, total: nat) returns (r: Option<Failure>)
    requires s.Valid() && Planned(c, s.store.content, s.store.w)
    requires Generated(placed, c.keep, total) && forall p :: p in placed ==> p.at in c.keep
    requires c.newId !in s.store.w.idx
    modifies s.store
    ensures s.Valid() && Reaches(s.store.content, old(s.store.w), s.store.w)
    ensures Planned(c, s.store.content, s.store.w)
    ensures r == None ==> Prepared(c, s.store.w)
    ensures r == Some(Reindexed) <==> !Extends(s.ix, s.recs, c)
    ensures r != Some(Incomplete)
  {
    hide Fold, FoldOk, Recorded, Reaches, Stored, Generated, TrueIndex, Extends, StandsAlone, Addressed, ClosedIn, Planned;
    ReachesSelf(s.store.content, s.store.w);
    if !Extends(s.ix, s.recs, c) {
      return Some(Reindexed);
    }
    ghost var w := s.store.w;
    var out := KeptEntries(s, c, placed, total);
    if out.None? {
      return Some(Incomplete);
    }
    var ok := s.store.PutPack(c.newId, out.value);
    ReachesIsLater(s.store.content, w, s.store.w);
    s.SyncLasts(w, s.store.w);
    PlanLasts(c, s.store.content, w, s.store.w);
    PlanIsClosed(c, s.store.content, s.store.w);
    r := if ok then None else Some(Storage);
  }

  /** The index of the new pack, taken from the repository's: nothing is missing from it. */
  method KeptEntries(s: Server, c: Job, placed: seq<Placed>, total: nat) returns (r: Option<seq<Entry>>)
    requires s.Valid() && Planned(c, s.store.content, s.store.w) && Extends(s.ix, s.recs, c)
    requires Generated(placed, c.keep, total) && forall p :: p in placed ==> p.at in c.keep
    ensures r.Some? && Addressed(r.value, s.store.content) && StandsAlone(r.value) && Fills(r.value, total)
    ensures Wf(PlannedIndex(c)) && c.keep <= Positions(PlannedIndex(c)) && forall o :: o in Oids(r.value) <==> o in KeptIds(c)
  {
    hide Fold, FoldOk, Recorded, Stored, Generated, StandsAlone, Addressed, KidsTrue, KidsIn, Server.Exact;
    ghost var pix := PlannedIndex(c);
    ExtendsKeepsPositions(s.ix, s.recs, c);
    PlacedInRange(s.ix, pix, placed, c.keep, total);
    r := Entries(s.ix, placed, total);
    if r.Some? {
      EntriesAreKept(s.ix, pix, s.store.content, placed, c.keep, total, r.value);
    }
  }

  lemma PlanIsClosed(c: Job, content: Contents, w: World)
    requires Planned(c, content, w)
    ensures |c.snapshot| > 0 && Wf(PlannedIndex(c)) && c.keep <= Positions(PlannedIndex(c))
  {
  }

  /** The new pack is stored and holds exactly the kept objects. */
  ghost predicate Prepared(c: Job, w: World)
    requires |c.snapshot| > 0 && Wf(PlannedIndex(c)) && c.keep <= Positions(PlannedIndex(c))
  {
    c.newId in w.idx && forall o :: o in Oids(w.idx[c.newId]) <==> o in KeptIds(c)
  }

  lemma PlacedInRange(ix: Index, pix: Index, placed: seq<Placed>, keep: set<nat>, total: nat)
    requires Wf(pix) && GrownFrom(pix, ix) && keep <= Positions(pix) && Generated(placed, keep, total)
    requires forall p :: p in placed ==> p.at in keep
    ensures Fit(ix, placed, total)
    ensures forall p :: p in placed ==> ix.objs[p.at] == pix.objs[p.at]
  {
  }

  lemma PlanLasts(c: Job, content: Contents, w: World, w': World)
    requires Planned(c, content, w) && Later(w, w')
    ensures Planned(c, content, w')
  {
    FoldStable(c.sources, w.idx, w'.idx);
  }

  // --- the commit -----------------------------------------------------------------------

  /** The ids the packs from `n` on hold, read from their stored indexes. */
  method LaterIds(store: Store, packs: seq<PackMeta>, n: nat) returns (r: Option<set<Oid>>)
    requires n <= |packs|
    modifies store`clock
    ensures r.Some? ==> r.value == Held(packs[n..], store.w.idx)
  {
    hide Held;
    var all, k := {}, n;
    HeldNone(packs, n, store.w.idx);
    while k < |packs|
      invariant n <= k <= |packs|
      invariant all == Held(packs[n..k], store.w.idx)
    {
      var entries := store.GetIdx(packs[k].id);
      if entries.None? {
        return None;
      }
      HeldNext(packs, n, k, store.w.idx);
      all := all + set o | o in Oids(entries.value);
      k := k + 1;
    }
    assert packs[n..k] == packs[n..];
    r := Some(all);
  }

  lemma HeldNone(packs: seq<PackMeta>, n: nat, idx: map<PackId, seq<Entry>>)
    requires n <= |packs|
    ensures Held(packs[n..n], idx) == {}
  {
  }

  lemma HeldNext(packs: seq<PackMeta>, n: nat, k: nat, idx: map<PackId, seq<Entry>>)
    requires n <= k < |packs|
    ensures Held(packs[n..k + 1], idx) == Held(packs[n..k], idx) + set o | o in Oids(EntriesOf(idx, packs[k].id))
  {
    assert packs[n..k + 1][..k - n] == packs[n..k];
    assert packs[n..k + 1][k - n] == packs[k];
  }

  /** The loop of `commit` over the planned positions: everything needed by now is kept, or
      is in a pack pushed since. The later packs are read only once something is missing. */
  method CheckNeeded(store: Store, ix: Index, c: Job, need: set<nat>, packs: seq<PackMeta>, n: nat) returns (r: Option<Failure>)
    requires n <= |packs| && c.snapLen <= |ix.oids|
    modifies store`clock
    ensures r == None ==> forall i :: i in need && i < c.snapLen && i !in c.keep ==> ix.oids[i] in Held(packs[n..], store.w.idx)
    ensures r.Some? && r.value.LeftOut? ==>
              exists i :: i in need && i < c.snapLen && i !in c.keep && ix.oids[i] == r.value.oid
                          && r.value.oid !in Held(packs[n..], store.w.idx)
    ensures r.Some? ==> r.value.LeftOut? || r.value.Storage?
  {
    var later: Option<set<Oid>> := None;
    var i := 0;
    while i < c.snapLen
      invariant i <= c.snapLen
      invariant later.Some? ==> later.value == Held(packs[n..], store.w.idx)
      invariant forall j :: j in need && j < i && j !in c.keep ==> ix.oids[j] in Held(packs[n..], store.w.idx)
    {
      if i in need && i !in c.keep {
        if later.None? {
          later := LaterIds(store, packs, n);
          if later.None? {
            return Some(Storage);
          }
        }
        if ix.oids[i] !in later.value {
          return Some(LeftOut(ix.oids[i]));
        }
      }
      i := i + 1;
    }
    r := None;
  }

  ghost function PlanOf(c: Job, merged: PackMeta): Plan
    requires |c.snapshot| > 0 && Wf(PlannedIndex(c)) && c.keep <= Positions(PlannedIndex(c))
  {
    Plan(merged, c.sources, KeptIds(c), c.cutoff)
  }

  /** What the checks of one attempt establish is what the write needs. */
  lemma CommitIsEnabled(content: Contents, w: World, c: Job, merged: PackMeta)
    requires Planned(c, content, w) && Prepared(c, w) && merged.id == c.newId
    requires !Lists(w.m, c.newId) && c.sources <= w.m.packs
    requires Wf(IndexOf(w)) && GrownFrom(PlannedIndex(c), IndexOf(w))
    requires forall i :: i in Needed(IndexOf(w), w.m, c.cutoff) && i < c.snapLen && i !in c.keep ==>
                           IndexOf(w).oids[i] in Held(w.m.packs[|c.sources|..], w.idx)
    ensures CanCollect(content, w, PlanOf(c, merged))
  {
    var pix, plan := PlannedIndex(c), PlanOf(c, merged);
    NamesClosed(content, pix, c.keep);
    forall i | i in Needed(IndexOf(w), w.m, plan.cutoff) && i < |Fold(plan.sources, w.idx).oids|
      ensures IndexOf(w).oids[i] in plan.keep || IndexOf(w).oids[i] in Held(w.m.packs[|plan.sources|..], w.idx)
    {
      if i in c.keep {
        assert IndexOf(w).oids[i] == pix.oids[i];
      }
    }
  }

  datatype Attempt = Landed | Done | Retry | Failed(why: Failure)

  /** The checks of one attempt, on this server's copy. */
  method Check(s: Server, c: Job) returns (r: Option<Failure>)
    requires s.Valid() && Planned(c, s.store.content, s.store.w)
    modifies s.store`clock
    ensures r == None ==> c.sources <= s.m.packs && Extends(s.ix, s.recs, c)
    ensures r == None ==> Wf(s.ix) &&
                          forall i :: i in Needed(s.ix, s.m, c.cutoff) && i < c.snapLen && i !in c.keep ==>
                                        s.ix.oids[i] in Held(s.m.packs[|c.sources|..], s.store.w.idx)
    ensures r == Some(PacksChanged) <==> !(c.sources <= s.m.packs)
    ensures r == Some(Reindexed) <==> c.sources <= s.m.packs && !Extends(s.ix, s.recs, c)
    ensures r.Some? ==> r.value.PacksChanged? || r.value.Reindexed? || r.value.LeftOut? || r.value.Storage?
  {
    var n := |c.sources|;
    if |s.m.packs| < n || s.m.packs[..n] != c.sources {
      return Some(PacksChanged);
    }
    if !Extends(s.ix, s.recs, c) {
      return Some(Reindexed);
    }
    var tips := TipsOf(s.ix, s.refs, Kept(s.m.dropped, c.cutoff));
    var need := ComputeClosure(s.ix, tips);
    r := CheckNeeded(s.store, s.ix, c, need, s.m.packs, n);
  }

  /** Taking over the manifest the collection just wrote: a failure to index it now is left
      to the next revalidation. */
  method Adopt(s: Server, written: Manifest, t: nat)
    requires s.Valid() && written == s.store.w.m && t == s.store.w.ver > 0
    modifies s, s.store`clock
    ensures s.Valid() && s.store.w == old(s.store.w)
  {
    var applied := s.Apply(written, t);
    if !applied {
      s.MarkStale();
    }
  }

  /** What `commit` makes of the answer to its write. */
  method AfterSave(s: Server, saved: Saved, written: Manifest, ghost w: World) returns (r: Attempt)
    requires s.store.Valid() && s.InSync(w) && Later(w, s.store.w) && s.Remembered()
    requires saved.SavedOk? ==> s.m == w.m && s.store.w.ver == saved.etag > 0 && s.store.w.m == written.(rev := w.m.rev + 1)
    modifies s, s.store`clock
    ensures s.Valid() && s.store.w == old(s.store.w)
    ensures r == (match saved case SavedOk(_) => Landed case Conflict => Retry case Unknown => Failed(Storage))
  {
    s.SyncLasts(w, s.store.w);
    match saved
    case SavedOk(t) =>
      Adopt(s, written.(rev := s.m.rev + 1), t);
      r := Landed;
    case Conflict => r := Retry;
    case Unknown => r := Failed(Storage);
  }

  /** One attempt of `commit`. The other servers act first; then the checks run on this
      server's copy, and the write lands only if that copy is still what is stored. */
  method TryCommit(s: Server, c: Job, merged: PackMeta, at: nat) returns (r: Attempt, ghost landed: bool)
    requires s.Valid() && Planned(c, s.store.content, s.store.w) && Prepared(c, s.store.w) && merged.id == c.newId
    modifies s, s.store
    ensures s.Valid() && Reaches(s.store.content, old(s.store.w), s.store.w)
    ensures Planned(c, s.store.content, s.store.w) && Prepared(c, s.store.w)
    ensures old(s.store.forgot) <= s.store.forgot && Remembers(old(s.store.w).m, s.store.w.m, s.store.forgot)
    ensures landed && c.newId !in s.store.forgot ==> Lists(s.store.w.m, c.newId) && !Lists(old(s.store.w.m), c.newId)
    ensures r.Landed? ==> landed
    ensures r.Done? ==> !landed && (c.newId !in s.store.forgot ==> Lists(s.store.w.m, c.newId))
    ensures r.Failed? && landed ==> r.why.Storage?
    ensures r.Done? <==> Lists(old(s.m), c.newId)
    ensures r.Failed? ==> !r.why.Busy?
  {
    hide Fold, FoldOk, Closure, Recorded, Reaches, Stored, Remembers;
    landed := false;
    ghost var was, forgot := s.store.w, s.store.forgot;
    s.Others();
    CopyRemembers(s, c.newId);
    ListsOn(was.m, s.store.w.m, c.newId, s.store.forgot);
    ReachesIsLater(s.store.content, old(s.store.w), s.store.w);
    PlanLasts(c, s.store.content, old(s.store.w), s.store.w);
    if Lists(s.m, c.newId) {
      return Done, landed; // an earlier attempt landed
    }
    ghost var w, since := s.store.w, s.store.forgot;
    var bad := Check(s, c);
    if bad.Some? {
      return Failed(bad.value), landed;
    }
    r, landed := Write(s, c, merged, at);
    RemembersOn(was.m, w.m, s.store.w.m, since, s.store.forgot);
    ReachesOn(s.store.content, old(s.store.w), w, s.store.w);
    ReachesIsLater(s.store.content, w, s.store.w);
    PlanLasts(c, s.store.content, w, s.store.w);
  }

  /** The write of one attempt, its checks passed. */
  method Write(s: Server, c: Job, merged: PackMeta, at: nat) returns (r: Attempt, ghost landed: bool)
    requires s.Valid() && Planned(c, s.store.content, s.store.w) && Prepared(c, s.store.w) && merged.id == c.newId
    requires !Lists(s.m, c.newId) && c.sources <= s.m.packs && Extends(s.ix, s.recs, c)
    requires forall i :: i in Needed(s.ix, s.m, c.cutoff) && i < c.snapLen && i !in c.keep ==>
                           s.ix.oids[i] in Held(s.m.packs[|c.sources|..], s.store.w.idx)
    modifies s, s.store
    ensures s.Valid() && Reaches(s.store.content, old(s.store.w), s.store.w)
    ensures old(s.store.forgot) <= s.store.forgot && Remembers(old(s.store.w).m, s.store.w.m, s.store.forgot)
    ensures landed ==> !Lists(old(s.store.w.m), c.newId) && (c.newId !in s.store.forgot ==> Lists(s.store.w.m, c.newId))
    ensures r.Landed? ==> landed
    ensures !r.Done? && (r.Failed? ==> r.why.Storage?)
  {
    hide Fold, FoldOk, Closure, Recorded, Reaches, Stored, Planned, Wf, Enabled, Do, TrueIndex, Server.Exact, Needed, Held, Extends, Remembers;
    ghost var w, since := s.store.w, s.store.forgot;
    var written := s.m.(packs := [merged] + s.m.packs[|c.sources|..],
                        retired := s.m.retired + RetireAll(c.sources, at),
                        dropped := Kept(s.m.dropped, c.cutoff));
    ghost var a := WriteIsEnabled(s, c, merged, at, written);
    var saved;
    saved, landed := s.store.SaveManifest(written, s.etag, a);
    ReachesIsLater(s.store.content, w, s.store.w);
    RemembersOn(s.m, w.m, s.store.w.m, since, s.store.forgot);
    if landed {
      s.MatchIsSame(w);
      assert merged in Written(w, written).m.packs;
      ListsOn(Written(w, written).m, s.store.w.m, c.newId, s.store.forgot);
    }
    r := AfterSave(s, saved, written, w);
  }

  lemma ListsOn(m: Manifest, m': Manifest, id: PackId, forgot: set<PackId>)
    requires Remembers(m, m', forgot)
    ensures Lists(m, id) && id !in forgot ==> Lists(m', id)
  {
  }

  lemma CopyRemembers(s: Server, id: PackId)
    requires s.Valid()
    ensures Lists(s.m, id) && id !in s.store.forgot ==> Lists(s.store.w.m, id)
  {
  }

  lemma WriteIsEnabled(s: Server, c: Job, merged: PackMeta, at: nat, written: Manifest) returns (a: Action)
    requires s.Valid() && Planned(c, s.store.content, s.store.w) && Prepared(c, s.store.w) && merged.id == c.newId
    requires !Lists(s.m, c.newId) && c.sources <= s.m.packs && Extends(s.ix, s.recs, c)
    requires forall i :: i in Needed(s.ix, s.m, c.cutoff) && i < c.snapLen && i !in c.keep ==>
                           s.ix.oids[i] in Held(s.m.packs[|c.sources|..], s.store.w.idx)
    requires written == s.m.(packs := [merged] + s.m.packs[|c.sources|..],
                             retired := s.m.retired + RetireAll(c.sources, at), dropped := Kept(s.m.dropped, c.cutoff))
    ensures a.Collect? && a.plan == PlanOf(c, merged)
    ensures Matches(s.etag, s.store.w) ==>
              Enabled(s.store.content, s.store.w, a) && Do(s.store.content, s.store.w, a) == Written(s.store.w, written)
  {
    a := Collect(PlanOf(c, merged), at);
    if Matches(s.etag, s.store.w) {
      s.MatchIsSame(s.store.w);
      ExtendsKeepsPositions(s.ix, s.recs, c);
      CommitIsEnabled(s.store.content, s.store.w, c, merged);
    }
  }

  /** The new pack was brought in at most once, and if so is listed, or its record is forgotten. */
  ghost predicate OnceUnlessForgotten(store: Store, id: PackId, landings: nat)
    reads store
  {
    id !in store.forgot ==> landings <= 1 && (landings == 1 ==> Lists(store.w.m, id))
  }

  /** `commit`. Whatever the other servers and the network do, short of forgetting the new pack
      before the last attempt: at most one write of this call lands; success means the new pack is
      listed; and a failure after a write landed is only ever one that says nothing about the
      outcome (storage, or the attempts used up), never a check. */
  method Commit(s: Server, c: Job, merged: PackMeta, now: nat -> nat) returns (r: Option<Failure>, ghost landings: nat)
    requires s.Valid() && Planned(c, s.store.content, s.store.w) && Prepared(c, s.store.w) && merged.id == c.newId
    modifies s, s.store
    ensures s.Valid() && Reaches(s.store.content, old(s.store.w), s.store.w)
    ensures OnceUnlessForgotten(s.store, c.newId, landings)
    ensures r == None && c.newId !in s.store.forgot ==> Lists(s.store.w.m, c.newId)
    ensures r.Some? && landings > 0 ==> r.value.Storage? || r.value.Busy? || c.newId in s.store.forgot
  {
    hide Stored, Reaches, Recorded, Fold, FoldOk, Needed, Closure, Remembers;
    landings := 0;
    ReachesSelf(s.store.content, s.store.w);
    var attempt := 0;
    while attempt < ATTEMPTS
      invariant s.Valid() && Reaches(s.store.content, old(s.store.w), s.store.w)
      invariant Planned(c, s.store.content, s.store.w) && Prepared(c, s.store.w)
      invariant OnceUnlessForgotten(s.store, c.newId, landings)
      invariant attempt == 0 ==> landings == 0
    {
      if attempt > 0 {
        ghost var was := s.store.w;
        var ok := Refresh(s, c);
        ListsOn(was.m, s.store.w.m, c.newId, s.store.forgot);
        ReachesOn(s.store.content, old(s.store.w), was, s.store.w);
        ReachesIsLater(s.store.content, was, s.store.w);
        if !ok {
          return Some(Storage), landings;
        }
      }
      ghost var before, landed := s.store.w, false;
      var did;
      did, landed := TryCommit(s, c, merged, now(attempt));
      ListsOn(before.m, s.store.w.m, c.newId, s.store.forgot);
      ReachesOn(s.store.content, old(s.store.w), before, s.store.w);
      ReachesIsLater(s.store.content, before, s.store.w);
      if landed {
        landings := landings + 1;
      }
      match did {
        case Landed => return None, landings;
        case Done => return None, landings;
        case Failed(why) => return Some(why), landings;
        case Retry =>
      }
      attempt := attempt + 1;
    }
    r := Some(Busy);
  }

  /** The forced revalidation before a retry. */
  method Refresh(s: Server, c: Job) returns (ok: bool)
    requires s.Valid() && Planned(c, s.store.content, s.store.w) && Prepared(c, s.store.w)
    modifies s, s.store
    ensures s.Valid() && Reaches(s.store.content, old(s.store.w), s.store.w)
    ensures Planned(c, s.store.content, s.store.w) && Prepared(c, s.store.w)
    ensures old(s.store.forgot) <= s.store.forgot && Remembers(old(s.store.w).m, s.store.w.m, s.store.forgot)
    ensures ok ==> s.m == s.store.w.m
  {
    ok := s.Revalidate(true, true);
    ReachesIsLater(s.store.content, old(s.store.w), s.store.w);
    PlanLasts(c, s.store.content, old(s.store.w), s.store.w);
  }
}
