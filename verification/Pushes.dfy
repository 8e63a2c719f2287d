/** depot/src/push.rs, the check and the commit of a push: what its server makes sure of before
    the manifest is swapped, against the obligations of a push in `World`. */
module Pushes {
  import opened Common
  import opened Git
  import opened ObjectIndex
  import opened World
  import opened Runs
  import opened Storage
  import opened Servers
  import opened RefUpdates
  import Collector

  datatype Job = Job(cmds: seq<Command>, pack: Option<PackMeta>, entries: seq<Entry>, atomic: bool)

  ghost function Known(ix: Index): (r: set<Oid>)
    ensures forall o :: o in r <==> o in ix.oids
  {
    set o | o in ix.oids
  }

  /** `Incoming::connected`: every link of every incoming object resolves, one link deep. */
  method IsConnected(ix: Index, entries: seq<Entry>) returns (ok: bool)
    ensures ok <==> Connected(entries, Known(ix))
  {
    var ids := Oids(entries);
    for i := 0 to |entries|
      invariant forall k, j :: 0 <= k < i && 0 <= j < |entries[k].children| ==>
                                 entries[k].children[j] in ix.oids || entries[k].children[j] in ids
    {
      var e := entries[i];
      for j := 0 to |e.children|
        invariant forall l :: 0 <= l < j ==> e.children[l] in ix.oids || e.children[l] in ids
      {
        if e.children[j] !in ix.oids && e.children[j] !in ids {
          assert e in entries;
          return false;
        }
      }
    }
    ok := true;
  }

  /** The connectivity check still stands: it was made against this generation of the index,
      which has only grown since, or against no repository at all. */
  ghost predicate Checked(ix: Index, gen: nat, checkedGen: Option<nat>, entries: seq<Entry>) {
    match checkedGen
    case None => Connected(entries, {})
    case Some(g) => g <= gen && (g == gen ==> Connected(entries, Known(ix)))
  }

  lemma CheckedLasts(ix: Index, gen: nat, ix': Index, gen': nat, checkedGen: Option<nat>, entries: seq<Entry>)
    requires Checked(ix, gen, checkedGen, entries)
    requires gen' >= gen && (gen' == gen ==> GrownFrom(ix, ix'))
    ensures Checked(ix', gen', checkedGen, entries)
  {
    if checkedGen.Some? && checkedGen.value == gen' {
      assert Known(ix) <= Known(ix');
    }
  }

  /** What the commit goes by: a check made at the generation the copy now has is taken as made
      against this copy. */
  ghost predicate Trusted(ix: Index, gen: nat, checkedGen: Option<nat>, entries: seq<Entry>) {
    match checkedGen
    case None => Connected(entries, {})
    case Some(g) => g == gen ==> Connected(entries, Known(ix))
  }

  /** The check before the pack is uploaded: against the repository as loaded, or against none
      for a first push. */
  method FirstCheck(repo: Option<Server>, job: Job) returns (ok: bool, checkedGen: Option<nat>)
    ensures ok && repo.None? ==> forall ix, gen: nat :: Checked(ix, gen, checkedGen, job.entries)
    ensures ok && repo.Some? ==> Checked(repo.value.ix, repo.value.gen, checkedGen, job.entries)
    ensures ok <==> Connected(job.entries, if repo.Some? then Known(repo.value.ix) else {})
  {
    match repo
    case None =>
      assert Known(EMPTY) == {};
      ok := IsConnected(EMPTY, job.entries);
      checkedGen := None;
    case Some(s) =>
      ok := IsConnected(s.ix, job.entries);
      checkedGen := Some(s.gen);
  }

  // --- one write ------------------------------------------------------------------------

  /** The manifest one attempt writes. */
  function Pushed(m: Manifest, job: Job, out: seq<Option<Refusal>>, g: Grounds, at: nat): Manifest
    requires |job.cmds| == |out|
  {
    m.(refs := Updated(job.cmds, out, m.refs, |job.cmds|),
       dropped := Capped(m.dropped + DroppedBy(job.cmds, out, m.refs, g, at, |job.cmds|)),
       packs := if job.pack.Some? then m.packs + [job.pack.value] else m.packs)
  }

  /** The manifest is the one a push writes over another, judged by that other's refs. */
  ghost predicate Effected(m: Manifest, job: Job, out: seq<Option<Refusal>>, rules: Rules) {
    exists was: Manifest, ix: Index, at: nat :: Wrote(m, was, ix, job, out, rules, at)
  }

  ghost predicate Wrote(m: Manifest, was: Manifest, ix: Index, job: Job, out: seq<Option<Refusal>>, rules: Rules, at: nat) {
    var g := GroundsOf(ix, job.entries, rules);
    |out| == |job.cmds| && Judged(job.cmds, was.refs, g, out) && m == Pushed(was, job, out, g, at).(rev := was.rev + 1)
  }

  /** What a push writes: its pack behind the others, nothing of the records, and of every ref the
      old value again, a descendant of it, or a record that it was dropped; no protected ref rewound. */
  lemma PushedIsAsked(was: Manifest, ix: Index, job: Job, out: seq<Option<Refusal>>, rules: Rules, at: nat, m: Manifest, name: string)
    requires Wrote(m, was, ix, job, out, rules, at) && |job.cmds| <= MAX_COMMANDS && name in was.refs
    ensures m.rev == was.rev + 1 && m.retired == was.retired && was.packs <= m.packs
    ensures forall p :: p in m.packs <==> p in was.packs || job.pack == Some(p)
    ensures var g := GroundsOf(ix, job.entries, rules);
            && Accounted(name, was.refs, m.refs, m.dropped, g)
            && (rules.guarded(name) ==>
                  name in m.refs && (m.refs[name] == was.refs[name] || FastForward(was.refs[name], m.refs[name], g)))
  {
    hide Updated, DroppedBy, Capped, Judged, FastForward;
    var g := GroundsOf(ix, job.entries, rules);
    NothingIsLostToTheCap(job.cmds, out, was.refs, g, at, was.dropped, name);
    if g.guarded(name) {
      GuardedOnlyAdvance(job.cmds, was.refs, g, out, |job.cmds|, name);
    }
  }

  /** The push's pack, if it has one, is stored with the entries checked, and nobody lists it. */
  ghost predicate Stowed(job: Job, w: World) {
    match job.pack
    case None => job.entries == []
    case Some(p) => p.id in w.idx && w.idx[p.id] == job.entries && StandsAlone(job.entries)
  }

  ghost predicate Unlisted(job: Job, m: Manifest) {
    job.pack.Some? ==> !Lists(m, job.pack.value.id)
  }

  /** What one attempt has made sure of before its write. */
  ghost predicate Ready(s: Server, job: Job, out: seq<Option<Refusal>>, rules: Rules)
    reads s, s.store
  {
    && s.Valid() && Stowed(job, s.store.w) && Unlisted(job, s.m)
    && Connected(job.entries, Known(s.ix))
    && Judged(job.cmds, s.refs, GroundsOf(s.ix, job.entries, rules), out)
  }

  /** The checks of one attempt are what the environment of a collection counts on: the write
      is a connectivity-checked push. */
  lemma PushIsEnabled(s: Server, job: Job, out: seq<Option<Refusal>>, rules: Rules, at: nat) returns (a: Action)
    requires Ready(s, job, out, rules)
    ensures a.Push? && a.pack == job.pack
    ensures Matches(s.etag, s.store.w) ==>
              Enabled(s.store.content, s.store.w, a)
              && Do(s.store.content, s.store.w, a)
                 == Written(s.store.w, Pushed(s.m, job, out, GroundsOf(s.ix, job.entries, rules), at))
  {
    hide Fold, FoldOk, Recorded, Judged, Updated, DroppedBy, Capped, Connected, Known, KindOf;
    var w, g := s.store.w, GroundsOf(s.ix, job.entries, rules);
    JudgedLength(job, s.refs, g, out);
    var written := Pushed(s.m, job, out, g, at);
    a := Action.Push(job.pack, written.refs, written.dropped);
    if Matches(s.etag, w) {
      s.MatchIsSame(w);
      KnownIsHeld(s.ix, w);
      ValuesAreKnown(job.cmds, s.refs, g, out, |job.cmds|);
      RefsAreKnown(s, job, written.refs, g);
      PushDrops(s.m, job, out, g, at);
    }
  }

  lemma JudgedLength(job: Job, refs: Refs, g: Grounds, out: seq<Option<Refusal>>)
    requires Judged(job.cmds, refs, g, out)
    ensures |out| == |job.cmds|
  {
  }

  lemma RefsAreKnown(s: Server, job: Job, refs: Refs, g: Grounds)
    requires AllKnown(refs, s.m.refs, g) && (forall o :: g.kind(o) == KindOf(s.ix, job.entries, o))
    ensures forall name :: name in refs ==>
                             refs[name] in s.m.refs.Values || refs[name] in Known(s.ix) || refs[name] in Oids(job.entries)
  {
  }

  lemma PushDrops(m: Manifest, job: Job, out: seq<Option<Refusal>>, g: Grounds, at: nat)
    requires |out| == |job.cmds|
    ensures forall d :: d in Pushed(m, job, out, g, at).dropped ==> d in m.dropped || d.id in m.refs.Values
  {
    hide DroppedBy, Updated, Capped;
    var new_ := DroppedBy(job.cmds, out, m.refs, g, at, |job.cmds|);
    DroppedWereRefs(job.cmds, out, m.refs, g, at, |job.cmds|);
    forall d | d in Capped(m.dropped + new_) ensures d in m.dropped || d.id in m.refs.Values {
      assert d in m.dropped + new_;
    }
  }

  lemma KnownIsHeld(ix: Index, w: World)
    requires ix == Fold(w.m.packs, w.idx)
    ensures Known(ix) == Objects(w)
  {
    FoldHolds(w.m.packs, w.idx);
  }

  /** The server adds its own pack to its index, which cannot fail: the pack stands alone. */
  method AdoptPush(s: Server, written: Manifest, t: nat, job: Job)
    requires s.store.Valid() && written == s.store.w.m && t == s.store.w.ver
    requires Wf(s.ix) && Recorded(s.ix, s.recs) && !s.stale && s.Exact(s.store.w)
    requires Stowed(job, s.store.w)
    requires written.packs == if job.pack.Some? then s.m.packs + [job.pack.value] else s.m.packs
    modifies s`ix, s`recs, s`m, s`etag, s`refs
    ensures s.Valid() && s.m == written && s.refs == written.refs && s.Exact(s.store.w)
    ensures GrownFrom(old(s.ix), s.ix)
  {
    hide Fold, FoldOk, Recorded, GrownFrom, Wf;
    ghost var idx := s.store.w.idx;
    if job.pack.Some? {
      var n := |s.m.packs|;
      assert written.packs[..n] == s.m.packs && written.packs[n] == job.pack.value;
      assert written.packs[..n + 1] == written.packs;
      AddedPackIsFine(s.ix, written.packs, n, job.entries, idx);
      var ix, recs, ok := AddNth(s.ix, s.recs, written.packs, n, job.entries, idx);
      s.ix, s.recs := ix, recs;
    } else {
      GrownSelf(s.ix);
    }
    s.Hold(written, t);
  }

  lemma GrownSelf(ix: Index)
    requires Wf(ix)
    ensures GrownFrom(ix, ix)
  {
  }

  lemma AddedPackIsFine(ix: Index, packs: seq<PackMeta>, n: nat, entries: seq<Entry>, idx: map<PackId, seq<Entry>>)
    requires n < |packs| && ix == Fold(packs[..n], idx) && FoldOk(packs[..n], idx)
    requires entries == EntriesOf(idx, packs[n].id) && StandsAlone(entries)
    ensures FoldOk(packs[..n + 1], idx)
  {
    hide Fold, FoldOk;
    FoldNext(packs, n, idx);
    FreshHaveBases(ix.oids, entries);
  }

  /** The record of the push's pack has been dropped since, by whichever server. */
  ghost predicate Forgotten(job: Job, store: Store)
    reads store
  {
    job.pack.Some? && job.pack.value.id in store.forgot
  }

  datatype Tried = Committed | Again | Unknown

  /** The write of one attempt. */
  method WritePush(s: Server, job: Job, out: seq<Option<Refusal>>, rules: Rules, at: nat) returns (r: Tried, ghost landed: bool)
    requires Ready(s, job, out, rules)
    modifies s, s.store
    ensures s.Valid() && Reaches(s.store.content, old(s.store.w), s.store.w)
    ensures old(s.store.forgot) <= s.store.forgot && Remembers(old(s.store.w).m, s.store.w.m, s.store.forgot)
    ensures landed && job.pack.Some? && !Forgotten(job, s.store) ==> Lists(s.store.w.m, job.pack.value.id)
    ensures r.Committed? ==> landed && s.m == s.store.w.m && s.Exact(s.store.w)
    ensures r.Committed? ==>
              |out| == |job.cmds|
              && s.m == Pushed(old(s.m), job, out, GroundsOf(old(s.ix), job.entries, rules), at).(rev := old(s.m.rev) + 1)
    ensures s.gen == old(s.gen) && GrownFrom(old(s.ix), s.ix)
  {
    hide Fold, FoldOk, Recorded, Stored, Enabled, Do, Reaches, Judged, Connected, Updated, DroppedBy, Capped, Known,
      GrownFrom, Wf, Stowed, GroundsOf, KindOf, Server.Exact, Remembers;
    ghost var w, since := s.store.w, s.store.forgot;
    var g := GroundsOf(s.ix, job.entries, rules);
    JudgedLength(job, s.refs, g, out);
    var refs, dropped := Update(job.cmds, out, s.refs, s.m.dropped, g, at);
    var written := s.m.(refs := refs, dropped := dropped, packs := if job.pack.Some? then s.m.packs + [job.pack.value] else s.m.packs);
    assert written == Pushed(s.m, job, out, g, at);
    ghost var a := PushIsEnabled(s, job, out, rules, at);
    var saved;
    saved, landed := s.store.SaveManifest(written, s.etag, a);
    ReachesIsLater(s.store.content, w, s.store.w);
    RemembersOn(s.m, w.m, s.store.w.m, since, s.store.forgot);
    if landed {
      s.MatchIsSame(w);
      PushedIsListed(w, written, job, s.store);
    }
    StowedLasts(job, w, s.store.w);
    r := SettlePush(s, saved, written, w, job);
  }

  /** What the answer to the write means for this server. */
  method SettlePush(s: Server, saved: Saved, written: Manifest, ghost w: World, job: Job) returns (r: Tried)
    requires s.store.Valid() && s.InSync(w) && Later(w, s.store.w) && s.Remembered() && Stowed(job, s.store.w)
    requires written.packs == if job.pack.Some? then s.m.packs + [job.pack.value] else s.m.packs
    requires saved.SavedOk? ==>
               s.m == w.m && s.Exact(w) && !s.stale && s.store.w.ver == saved.etag && s.store.w.m == written.(rev := w.m.rev + 1)
    modifies s
    ensures s.Valid() && s.gen == old(s.gen) && GrownFrom(old(s.ix), s.ix)
    ensures r == (match saved case SavedOk(_) => Committed case Conflict => Again case Unknown => Tried.Unknown)
    ensures r.Committed? ==> s.m == s.store.w.m == written.(rev := old(s.m.rev) + 1) && s.Exact(s.store.w)
  {
    hide Fold, FoldOk, Recorded, Stored, GrownFrom, Wf, StandsAlone, Remembers;
    GrownSelf(s.ix);
    s.SyncLasts(w, s.store.w);
    match saved
    case SavedOk(t) =>
      StaysExact(s, w);
      AdoptPush(s, written.(rev := s.m.rev + 1), t, job);
      r := Committed;
    case Conflict => r := Again;
    case Unknown => r := Tried.Unknown;
  }

  lemma StowedLasts(job: Job, w: World, w': World)
    requires Stowed(job, w) && Later(w, w')
    ensures Stowed(job, w')
  {
  }

  lemma StaysExact(s: Server, w: World)
    requires s.InSync(w) && s.m == w.m && s.Exact(w) && Later(w, s.store.w)
    ensures s.Exact(s.store.w)
  {
    FoldStable(s.m.packs, w.idx, s.store.w.idx);
  }

  lemma PushedIsListed(w: World, written: Manifest, job: Job, store: Store)
    requires Remembers(Written(w, written).m, store.w.m, store.forgot)
    requires job.pack.Some? ==> job.pack.value in written.packs
    ensures job.pack.Some? && !Forgotten(job, store) ==> Lists(store.w.m, job.pack.value.id)
  {
  }

  // --- the retry loop -------------------------------------------------------------------

  datatype Answer =
    | Done(out: seq<Option<Refusal>>) | Refused(out: seq<Option<Refusal>>) | NotConnected | Lost | Busy

  predicate AllOk(out: seq<Option<Refusal>>) {
    forall i :: 0 <= i < |out| ==> out[i].None?
  }

  predicate AnyOk(out: seq<Option<Refusal>>) {
    exists i :: 0 <= i < |out| && out[i].None?
  }

  /** The pack was brought in at most once, and if so is listed, or its record is forgotten. */
  ghost predicate OnceUnlessForgotten(store: Store, job: Job, landings: nat)
    reads store
  {
    job.pack.Some? ==> Collector.OnceUnlessForgotten(store, job.pack.value.id, landings)
  }

  /** No write of this push has landed, or its pack is forgotten. */
  ghost predicate NoneUnlessForgotten(store: Store, job: Job, landings: nat)
    reads store
  {
    job.pack.Some? && !Forgotten(job, store) ==> landings == 0
  }

  /** Between the attempts: what the loop relies on. */
  ghost predicate Going(s: Server, job: Job, checkedGen: Option<nat>, landings: nat)
    reads s, s.store
  {
    && s.Valid() && Stowed(job, s.store.w) && Checked(s.ix, s.gen, checkedGen, job.entries)
    && OnceUnlessForgotten(s.store, job, landings)
  }

  /** The same before the first check of the commit, when the copy may be another than the one
      the push was first checked against. */
  ghost predicate Ongoing(s: Server, job: Job, checkedGen: Option<nat>, landings: nat)
    reads s, s.store
  {
    && s.Valid() && Stowed(job, s.store.w) && Trusted(s.ix, s.gen, checkedGen, job.entries)
    && OnceUnlessForgotten(s.store, job, landings)
  }

  lemma ListsOn(m: Manifest, job: Job, store: Store)
    requires Remembers(m, store.w.m, store.forgot)
    ensures job.pack.Some? && Lists(m, job.pack.value.id) && !Forgotten(job, store) ==> Lists(store.w.m, job.pack.value.id)
  {
  }

  lemma GoingIsOngoing(s: Server, job: Job, checkedGen: Option<nat>, landings: nat)
    requires Going(s, job, checkedGen, landings)
    ensures Ongoing(s, job, checkedGen, landings)
  {
  }

  /** The forced revalidation before a retry. */
  method LookAgain(s: Server, job: Job, gen: Option<nat>, ghost landings: nat) returns (ok: bool)
    requires Going(s, job, gen, landings)
    modifies s, s.store
    ensures Going(s, job, gen, landings) && Reaches(s.store.content, old(s.store.w), s.store.w)
    ensures ok ==> s.m == s.store.w.m
  {
    hide Stored, Reaches, Recorded, Fold, FoldOk, Connected, Known, Checked, GrownFrom, Wf, StandsAlone, Remembers, Lists;
    ghost var w, ix, was := s.store.w, s.ix, s.gen;
    ok := s.Revalidate(true, true);
    ReachesIsLater(s.store.content, w, s.store.w);
    ListsOn(w.m, job, s.store);
    CheckedLasts(ix, was, s.ix, s.gen, gen, job.entries);
  }

  method OthersAct(s: Server, job: Job, ghost gen: Option<nat>, ghost landings: nat)
    requires Ongoing(s, job, gen, landings)
    modifies s.store
    ensures Ongoing(s, job, gen, landings) && Reaches(s.store.content, old(s.store.w), s.store.w)
    ensures old(s.store.forgot) <= s.store.forgot
  {
    hide Stored, Reaches, Recorded, Fold, FoldOk, Connected, Known, Trusted, GrownFrom, Wf, StandsAlone, Remembers, Lists;
    s.Others();
    ListsOn(old(s.store.w).m, job, s.store);
    ReachesIsLater(s.store.content, old(s.store.w), s.store.w);
  }

  lemma HasWritten(m: Manifest, was: Manifest, ix: Index, job: Job, out: seq<Option<Refusal>>, rules: Rules, at: nat)
    requires |out| == |job.cmds| && Judged(job.cmds, was.refs, GroundsOf(ix, job.entries, rules), out)
    requires m == Pushed(was, job, out, GroundsOf(ix, job.entries, rules), at).(rev := was.rev + 1)
    ensures Effected(m, job, out, rules)
  {
    hide Updated, DroppedBy, Capped, Judged, GroundsOf;
    assert Wrote(m, was, ix, job, out, rules, at);
  }

  method AttemptPush(s: Server, job: Job, ghost gen: Option<nat>, out: seq<Option<Refusal>>, rules: Rules, at: nat, ghost landings: nat)
    returns (r: Tried, ghost landed: bool)
    requires Going(s, job, gen, landings) && Ready(s, job, out, rules) && NoneUnlessForgotten(s.store, job, landings)
    modifies s, s.store
    ensures Going(s, job, gen, if landed then landings + 1 else landings) && Reaches(s.store.content, old(s.store.w), s.store.w)
    ensures r.Committed? ==> landed && Effected(s.m, job, out, rules)
  {
    hide Stored, Reaches, Recorded, Fold, FoldOk, Connected, Known, Checked, Judged, Updated, DroppedBy, Capped,
      GrownFrom, Wf, StandsAlone, Remembers, Lists, GroundsOf, KindOf, Effected;
    ghost var w, ix, m := s.store.w, s.ix, s.m;
    r, landed := WritePush(s, job, out, rules, at);
    if r.Committed? {
      HasWritten(s.m, m, ix, job, out, rules, at);
    }
    ReachesIsLater(s.store.content, w, s.store.w);
    CheckedLasts(ix, s.gen, s.ix, s.gen, gen, job.entries);
  }

  lemma Starts(s: Server, job: Job, checkedGen: Option<nat>)
    requires s.Valid() && Stowed(job, s.store.w) && Trusted(s.ix, s.gen, checkedGen, job.entries)
    ensures Ongoing(s, job, checkedGen, 0)
  {
  }

  /** No write of this push has landed: its own pack would be listed, unless forgotten. */
  lemma NoneLanded(s: Server, job: Job, gen: Option<nat>, landings: nat)
    requires Going(s, job, gen, landings) && Unlisted(job, s.m) && s.m == s.store.w.m
    ensures NoneUnlessForgotten(s.store, job, landings)
  {
  }

  lemma GoingMeans(s: Server, job: Job, gen: Option<nat>, landings: nat)
    requires Going(s, job, gen, landings)
    ensures s.Valid() && Checked(s.ix, s.gen, gen, job.entries)
    ensures OnceUnlessForgotten(s.store, job, landings)
    ensures job.pack.Some? && Lists(s.m, job.pack.value.id) && !Forgotten(job, s.store) ==> Lists(s.store.w.m, job.pack.value.id)
  {
  }

  lemma MakesReady(s: Server, job: Job, gen: Option<nat>, landings: nat, out: seq<Option<Refusal>>, rules: Rules)
    requires Going(s, job, gen, landings) && Unlisted(job, s.m) && (gen.Some? ==> gen.value == s.gen)
    requires Judged(job.cmds, s.refs, GroundsOf(s.ix, job.entries, rules), out)
    ensures Ready(s, job, out, rules)
  {
  }

  /** The check is made again just when the generation differs. */
  method CheckAgain(s: Server, job: Job, gen: Option<nat>, ghost landings: nat) returns (ok: bool, gen': Option<nat>)
    requires Ongoing(s, job, gen, landings)
    ensures ok ==> Going(s, job, gen', landings) && (gen'.Some? ==> gen'.value == s.gen)
    ensures ok <==> gen.None? || gen.value == s.gen || Connected(job.entries, Known(s.ix))
  {
    ok, gen' := true, gen;
    if gen.Some? && gen.value != s.gen {
      ok := IsConnected(s.ix, job.entries);
      gen' := Some(s.gen);
    }
  }

  datatype Attempt = Ends(answer: Answer) | Retries(out: seq<Option<Refusal>>)

  /** What an answer says of the copy it leaves: what it was refused by, or what was written. */
  ghost predicate Explained(r: Answer, s: Server, job: Job, rules: Rules)
    reads s
  {
    match r
    case Done(out) => Effected(s.m, job, out, rules) || (job.pack.Some? && Lists(s.m, job.pack.value.id))
    case Refused(out) => !Good(job, out) && Judged(job.cmds, s.refs, GroundsOf(s.ix, job.entries, rules), out)
    case NotConnected => !Connected(job.entries, Known(s.ix))
    case _ => true
  }

  predicate Good(job: Job, out: seq<Option<Refusal>>) {
    AnyOk(out) && (job.atomic ==> AllOk(out))
  }

  /** What an answer says of the writes of this push that landed, as long as its pack is
      remembered. */
  ghost predicate Truthful(r: Answer, job: Job, landings: nat, store: Store)
    reads store
  {
    && (r.Done? ==> Good(job, r.out))
    && OnceUnlessForgotten(store, job, landings)
    && (job.pack.Some? && !Forgotten(job, store) ==>
          && (r.Done? ==> Lists(store.w.m, job.pack.value.id))
          && (r.Refused? || r.NotConnected? ==> landings == 0))
  }

  /** A push goes on if it is good for something, and an atomic one if it is good for all. */
  lemma AnswerMeans(r: Answer, s: Server, job: Job, landings: nat, rules: Rules)
    requires Truthful(r, job, landings, s.store) && Explained(r, s, job, rules)
    ensures r.Done? ==> None in r.out && (job.atomic ==> forall x :: x in r.out ==> x == None)
    ensures r.Refused? ==> None !in r.out || (job.atomic && exists x :: x in r.out && x != None)
  {
    hide Effected, Judged, Lists, Connected, Known, GroundsOf, KindOf;
    if r.Refused? && AnyOk(r.out) {
      var i :| 0 <= i < |r.out| && r.out[i].Some?;
      assert r.out[i] in r.out;
    }
  }

  /** One attempt; `written` is what an earlier one wrote. */
  method TryPush(s: Server, job: Job, gen: Option<nat>, written: Option<seq<Option<Refusal>>>, rules: Rules, at: nat, ghost before: nat)
    returns (r: Attempt, gen': Option<nat>, ghost landings: nat)
    requires if written.Some? then Going(s, job, gen, before) && Good(job, written.value)
             else Ongoing(s, job, gen, before) && Unlisted(job, s.m) && before == 0
    modifies s, s.store
    ensures s.Valid() && Reaches(s.store.content, old(s.store.w), s.store.w)
    ensures r.Ends? ==> Truthful(r.answer, job, landings, s.store) && Explained(r.answer, s, job, rules)
    ensures r.Retries? ==> Going(s, job, gen', landings) && Good(job, r.out)
  {
    hide Server.Valid, Stowed, Checked, Trusted, Ready, Connected, Reaches, Judged, Updated, DroppedBy, Capped,
      AnyOk, AllOk, Known, KindOf, GroundsOf, Lists, Effected;
    landings, gen' := before, gen;
    ReachesSelf(s.store.content, s.store.w);
    if written.Some? {
      var ok := LookAgain(s, job, gen, landings);
      if !ok {
        return Ends(Lost), gen', landings;
      }
      if job.pack.Some? && Lists(s.m, job.pack.value.id) {
        GoingMeans(s, job, gen, landings);
        return Ends(Done(written.value)), gen', landings;
      }
      NoneLanded(s, job, gen, landings);
      GoingIsOngoing(s, job, gen, landings);
    }
    ghost var w := s.store.w;
    r, gen', landings := CheckAndWrite(s, job, gen, rules, at, before);
    ReachesOn(s.store.content, old(s.store.w), w, s.store.w);
  }

  /** The rest of an attempt, nothing of this push being listed. */
  method CheckAndWrite(s: Server, job: Job, gen: Option<nat>, rules: Rules, at: nat, ghost before: nat)
    returns (r: Attempt, gen': Option<nat>, ghost landings: nat)
    requires Ongoing(s, job, gen, before) && Unlisted(job, s.m) && NoneUnlessForgotten(s.store, job, before)
    modifies s, s.store
    ensures s.Valid() && Reaches(s.store.content, old(s.store.w), s.store.w)
    ensures r.Ends? ==> Truthful(r.answer, job, landings, s.store) && Explained(r.answer, s, job, rules)
    ensures r.Retries? ==> Going(s, job, gen', landings) && Good(job, r.out)
  {
    hide Server.Valid, Stowed, Checked, Trusted, Ready, Connected, Reaches, Judged, Updated, DroppedBy, Capped,
      AnyOk, AllOk, Known, KindOf, GroundsOf, Lists, Unlisted, Effected;
    OthersAct(s, job, gen, before);
    ghost var w := s.store.w;
    var ok;
    landings := before;
    ok, gen' := CheckAgain(s, job, gen, before);
    if !ok {
      return Ends(NotConnected), gen', landings;
    }
    var out := Judge(job.cmds, s.refs, GroundsOf(s.ix, job.entries, rules));
    if !AnyOk(out) || (job.atomic && !AllOk(out)) {
      return Ends(Refused(out)), gen', landings;
    }
    MakesReady(s, job, gen', before, out, rules);
    var tried;
    ghost var landed;
    tried, landed := AttemptPush(s, job, gen', out, rules, at, before);
    ReachesOn(s.store.content, old(s.store.w), w, s.store.w);
    if landed {
      landings := before + 1;
    }
    r := match tried
      case Committed => Ends(Done(out))
      case Unknown => Ends(Lost)
      case Again => Retries(out);
  }

  /** `commit`, of a push whose check is not wrongly taken as current. The pack's id is drawn at
      random, so nobody lists it yet. Whatever the other servers and the network do, each write is
      a connectivity-checked push over the manifest it replaces. As long as nobody forgets the pack
      before the answer, at most one with it lands; success means that the pack is listed, a
      refusal that none of it landed. */
  method CommitPush(s: Server, job: Job, checkedGen: Option<nat>, rules: Rules, now: nat -> nat)
    returns (r: Answer, ghost landings: nat)
    requires s.Valid() && Stowed(job, s.store.w) && Unlisted(job, s.m)
    requires Trusted(s.ix, s.gen, checkedGen, job.entries)
    modifies s, s.store
    ensures s.Valid() && Reaches(s.store.content, old(s.store.w), s.store.w)
    ensures OnceUnlessForgotten(s.store, job, landings)
    ensures r.Done? && job.pack.Some? && !Forgotten(job, s.store) ==> Lists(s.store.w.m, job.pack.value.id)
    ensures (r.Refused? || r.NotConnected?) && job.pack.Some? && !Forgotten(job, s.store) ==> landings == 0
    ensures r.Done? ==> None in r.out && (job.atomic ==> forall x :: x in r.out ==> x == None)
    ensures r.Refused? ==> None !in r.out || (job.atomic && exists x :: x in r.out && x != None)
    ensures Explained(r, s, job, rules)
  {
    hide Server.Valid, Stowed, Checked, Trusted, Connected, Reaches, AnyOk, AllOk, Lists, Effected, Judged,
      GroundsOf, KindOf, Known;
    r, landings := Busy, 0;
    Starts(s, job, checkedGen);
    ReachesSelf(s.store.content, s.store.w);
    var gen, attempt := checkedGen, 0;
    var written: Option<seq<Option<Refusal>>> := None;
    while attempt < Collector.ATTEMPTS
      invariant s.Valid() && Reaches(s.store.content, old(s.store.w), s.store.w)
      invariant if written.Some? then Going(s, job, gen, landings) && Good(job, written.value)
                else Ongoing(s, job, gen, landings) && Unlisted(job, s.m) && landings == 0
    {
      ghost var w := s.store.w;
      var did;
      did, gen, landings := TryPush(s, job, gen, written, rules, now(attempt), landings);
      ReachesOn(s.store.content, old(s.store.w), w, s.store.w);
      if did.Ends? {
        AnswerMeans(did.answer, s, job, landings, rules);
        return did.answer, landings;
      }
      written := Some(did.out);
      attempt := attempt + 1;
    }
  }
}
