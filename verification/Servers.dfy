/** depot/src/app.rs, `Repo` and `App::apply`/`revalidate`, and depot/src/gc.rs: one server's
    copy of a repository and the writes it makes from it. */
module Servers {
  import opened Common
  import opened Git
  import opened ObjectIndex
  import opened World
  import opened Runs
  import opened Storage

  /** The record a pack gets each time it is indexed; `Rc::ptr_eq` on records is identity of
      these objects. The ghost field remembers the index as it stood once the pack was in. */
  class PackInfo {
    const id: PackId
    ghost const upto: Index

    constructor (id: PackId, ghost upto: Index)
      ensures this.id == id && this.upto == upto
    {
      this.id := id;
      this.upto := upto;
    }
  }

  /** Each record belongs to its place in the index, which still begins with what it saw. */
  ghost predicate Recorded(ix: Index, recs: seq<PackInfo>) {
    && |recs| == |ix.packs|
    && (|recs| > 0 ==> recs[|recs| - 1].upto == ix)
    && forall k :: 0 <= k < |recs| ==>
                     recs[k].id == ix.packs[k] && recs[k].upto.packs == ix.packs[..k + 1] && GrownFrom(recs[k].upto, ix)
  }

  lemma RecordNext(ix: Index, recs: seq<PackInfo>, ix': Index, rec: PackInfo)
    requires Recorded(ix, recs) && GrownFrom(ix, ix') && ix'.packs == ix.packs + [rec.id] && rec.upto == ix'
    ensures Recorded(ix', recs + [rec])
  {
    var all := recs + [rec];
    forall k | 0 <= k < |all|
      ensures all[k].id == ix'.packs[k] && all[k].upto.packs == ix'.packs[..k + 1] && GrownFrom(all[k].upto, ix')
    {
      if k < |recs| {
        assert all[k] == recs[k];
        assert ix'.packs[..k + 1] == ix.packs[..k + 1];
        GrowsOn(recs[k].upto, ix, ix');
      }
    }
  }

  lemma GrowsOn(a: Index, b: Index, c: Index)
    requires GrownFrom(a, b) && GrownFrom(b, c)
    ensures GrownFrom(a, c)
  {
  }

  /** `add_pack` of the `k`-th pack, with the record it makes. */
  method AddNth(ix: Index, recs: seq<PackInfo>, packs: seq<PackMeta>, k: nat, entries: seq<Entry>, ghost idx: map<PackId, seq<Entry>>)
    returns (ix': Index, recs': seq<PackInfo>, ok: bool)
    requires k < |packs| && entries == EntriesOf(idx, packs[k].id)
    requires Wf(ix) && Recorded(ix, recs) && ix == Fold(packs[..k], idx) && FoldOk(packs[..k], idx)
    ensures ix' == Fold(packs[..k + 1], idx) && ok == FoldOk(packs[..k + 1], idx)
    ensures Wf(ix') && Recorded(ix', recs') && GrownFrom(ix, ix')
    ensures !ok ==> |ix'.oids| > |ix.oids|
  {
    var (next, good) := AddPack(ix, packs[k].id, entries);
    FoldNext(packs, k, idx);
    AddPackGrows(ix, packs[k].id, entries);
    var rec := new PackInfo(packs[k].id, next);
    RecordNext(ix, recs, next, rec);
    ix', recs', ok := next, recs + [rec], good;
  }

  predicate IsPrefix(a: seq<PackMeta>, b: seq<PackMeta>) {
    |a| <= |b| && forall i :: 0 <= i < |a| ==> a[i].id == b[i].id
  }

  /** How a copy moves on while it stays loaded: to a newer revision, or, at the same one,
      only by its index growing (an extension that failed half way). */
  predicate Forward(m: Manifest, ix: Index, m': Manifest, ix': Index) {
    m.rev < m'.rev || (m == m' && (ix' == ix || |ix.oids| < |ix'.oids|))
  }

  class Server {
    const store: Store
    var stale: bool
    var gen: nat
    var m: Manifest
    var etag: Option<nat>
    var ix: Index
    var recs: seq<PackInfo>
    var refs: map<string, Oid>

    /** The index is exactly the fold of the manifest's packs, none refused. */
    ghost predicate Exact(w: World)
      reads this
    {
      ix == Fold(m.packs, w.idx) && FoldOk(m.packs, w.idx)
    }

    /** How this copy relates to what is stored: unless it is marked stale its index is
        exact; if its ETag is the stored one it is the stored manifest and not stale; a
        revision names one manifest; and a repository never written is never stale. */
    ghost predicate InSync(w: World)
      reads this
    {
      && Wf(ix) && Recorded(ix, recs) && refs == m.refs
      && (etag.Some? ==> etag.value <= w.ver && (etag.value == w.ver ==> m == w.m && !stale))
      && m.rev <= w.m.rev
      && (m.rev == w.m.rev ==> m == w.m && Exact(w))
      && (!stale ==> Exact(w)) && (stale ==> w.ver > 0)
      && forall p :: p in m.packs ==> p.id in w.idx
    }

    ghost predicate Valid()
      reads this, store
    {
      store.Valid() && InSync(store.w) && Remembered()
    }

    /** What this copy lists is listed still, or was forgotten. */
    ghost predicate Remembered()
      reads this, store
    {
      Remembers(m, store.w.m, store.forgot)
    }

    constructor (store: Store, m: Manifest, etag: Option<nat>, ix: Index, recs: seq<PackInfo>)
      requires store.Valid() && m == store.w.m && (etag.Some? ==> etag.value == store.w.ver)
      requires ix == Fold(m.packs, store.w.idx) && FoldOk(m.packs, store.w.idx) && Recorded(ix, recs)
      ensures Valid() && this.store == store && !stale && this.m == m && this.ix == ix && gen == 0
    {
      this.store, this.m, this.etag, this.ix, this.recs := store, m, etag, ix, recs;
      stale, gen, refs := false, 0, m.refs;
      new;
      FoldWf(m.packs, store.w.idx);
    }

    lemma SyncLasts(w: World, w': World)
      requires InSync(w) && Later(w, w')
      ensures InSync(w')
    {
      FoldStable(m.packs, w.idx, w'.idx);
    }

    /** `build_index`. Only the clock moves when indexes are read. */
    static method BuildIndex(store: Store, packs: seq<PackMeta>) returns (r: Option<Index>, recs': seq<PackInfo>)
      modifies store`clock
      ensures r.Some? ==> r.value == Fold(packs, store.w.idx) && FoldOk(packs, store.w.idx) && Recorded(r.value, recs')
    {
      var built, k := EMPTY, 0;
      recs' := [];
      while k < |packs|
        invariant k <= |packs|
        invariant built == Fold(packs[..k], store.w.idx) && FoldOk(packs[..k], store.w.idx)
        invariant Wf(built) && Recorded(built, recs')
      {
        var entries := store.GetIdx(packs[k].id);
        if entries.None? {
          return None, recs';
        }
        var ok;
        built, recs', ok := AddNth(built, recs', packs, k, entries.value, store.w.idx);
        if !ok {
          return None, recs';
        }
        k := k + 1;
      }
      assert packs[..k] == packs;
      r := Some(built);
    }

    /** The extending half of `apply`: every new pack index is read before any is added. */
    method Extend(packs: seq<PackMeta>) returns (ok: bool)
      requires Wf(ix) && Recorded(ix, recs) && Exact(store.w) && !stale && IsPrefix(m.packs, packs)
      modifies this`ix, this`recs, this`stale, store`clock
      ensures Wf(ix) && Recorded(ix, recs) && GrownFrom(old(ix), ix)
      ensures ok ==> !stale && ix == Fold(packs, store.w.idx) && FoldOk(packs, store.w.idx)
      ensures !ok ==> if stale then |ix.oids| > old(|ix.oids|) else ix == old(ix) && recs == old(recs)
      ensures !ok ==> |packs| > |m.packs|
    {
      var n := |m.packs|;
      var add := ReadIndexes(store, packs, n);
      if add.None? {
        return false;
      }
      SameIdsFold(packs, n);
      ok := AddAll(packs, n, add.value);
    }

    method AddAll(packs: seq<PackMeta>, n: nat, add: seq<seq<Entry>>) returns (ok: bool)
      requires Wf(ix) && Recorded(ix, recs) && !stale
      requires n <= |packs| && ix == Fold(packs[..n], store.w.idx) && FoldOk(packs[..n], store.w.idx)
      requires |add| == |packs| - n
      requires forall k :: n <= k < |packs| ==> add[k - n] == EntriesOf(store.w.idx, packs[k].id)
      modifies this`ix, this`recs, this`stale
      ensures Wf(ix) && Recorded(ix, recs) && GrownFrom(old(ix), ix)
      ensures ok ==> !stale && ix == Fold(packs, store.w.idx) && FoldOk(packs, store.w.idx)
      ensures !ok ==> stale && |ix.oids| > old(|ix.oids|)
      ensures n == |packs| ==> ok
    {
      hide AddPack, Fold, FoldOk, Recorded, Wf;
      var k := n;
      ghost var ix0 := ix;
      while k < |packs|
        invariant n <= k <= |packs| && !stale
        invariant ix == Fold(packs[..k], store.w.idx) && FoldOk(packs[..k], store.w.idx)
        invariant Wf(ix) && Recorded(ix, recs) && GrownFrom(ix0, ix)
      {
        ghost var before := ix;
        var good;
        ix, recs, good := AddNth(ix, recs, packs, k, add[k - n], store.w.idx);
        GrowsOn(ix0, before, ix);
        if !good {
          stale := true;
          return false;
        }
        k := k + 1;
      }
      assert packs[..k] == packs;
      ok := true;
    }

    lemma SameIdsFold(packs: seq<PackMeta>, n: nat)
      requires Exact(store.w) && IsPrefix(m.packs, packs) && n == |m.packs|
      ensures ix == Fold(packs[..n], store.w.idx) && FoldOk(packs[..n], store.w.idx)
    {
      assert Ids(packs[..n]) == Ids(m.packs);
      FoldById(packs[..n], m.packs, store.w.idx);
    }

    static method ReadIndexes(store: Store, packs: seq<PackMeta>, n: nat) returns (r: Option<seq<seq<Entry>>>)
      requires n <= |packs|
      modifies store`clock
      ensures r.Some? ==> |r.value| == |packs| - n
      ensures r.Some? ==> forall k :: n <= k < |packs| ==> r.value[k - n] == EntriesOf(store.w.idx, packs[k].id)
      ensures r.None? ==> n < |packs|
    {
      var all, k := [], n;
      while k < |packs|
        invariant n <= k <= |packs| && |all| == k - n
        invariant forall j :: n <= j < k ==> all[j - n] == EntriesOf(store.w.idx, packs[j].id)
      {
        var entries := store.GetIdx(packs[k].id);
        if entries.None? {
          return None;
        }
        all := all + [entries.value];
        k := k + 1;
      }
      r := Some(all);
    }

    /** `apply`: adopt the manifest storage just answered with. A failure leaves the manifest,
        the refs and the ETag alone, and marks the copy stale if it touched the index. */
    method Apply(new_: Manifest, t: nat) returns (ok: bool)
      requires Valid() && new_ == store.w.m && t == store.w.ver
      modifies this, store`clock
      ensures Valid() && store.w == old(store.w)
      ensures ok ==> m == new_ && etag == Some(t) && refs == new_.refs && !stale && Exact(store.w)
      ensures !ok ==> m == old(m) && etag == old(etag) && refs == old(refs) && gen == old(gen)
      ensures !ok ==> stale || (ix == old(ix) && recs == old(recs))
      ensures Forward(old(m), old(ix), m, ix)
      ensures gen >= old(gen) && (gen == old(gen) ==> GrownFrom(old(ix), ix))
    {
      hide Fold, FoldOk, Wf, Recorded;
      if new_.rev < m.rev {
        return false;
      }
      SameRevisionSameIndex(new_);
      if IsPrefix(m.packs, new_.packs) && !stale {
        ok := Extend(new_.packs);
        if !ok {
          return;
        }
      } else {
        ok := Rebuild(new_.packs);
        if !ok {
          return;
        }
      }
      Hold(new_, t);
      ok := true;
    }

    /** The manifest an exact index was made for, and its ETag. */
    method Hold(new_: Manifest, t: nat)
      requires store.Valid() && new_ == store.w.m && t == store.w.ver
      requires Wf(ix) && Recorded(ix, recs) && !stale
      requires ix == Fold(new_.packs, store.w.idx) && FoldOk(new_.packs, store.w.idx)
      modifies this`m, this`etag, this`refs
      ensures Valid() && m == new_ && etag == Some(t) && refs == new_.refs && Exact(store.w)
    {
      hide Fold, FoldOk, Wf, Recorded;
      m := new_;
      etag := Some(t);
      refs := new_.refs;
    }

    lemma SameRevisionSameIndex(new_: Manifest)
      requires Valid() && new_ == store.w.m
      ensures new_.rev == m.rev ==> new_ == m && ix == Fold(new_.packs, store.w.idx)
    {
    }

    method Rebuild(packs: seq<PackMeta>) returns (ok: bool)
      requires Wf(ix) && Recorded(ix, recs)
      modifies this`ix, this`recs, this`gen, this`stale, store`clock
      ensures Wf(ix) && Recorded(ix, recs)
      ensures ok ==> ix == Fold(packs, store.w.idx) && FoldOk(packs, store.w.idx) && !stale && gen == old(gen) + 1
      ensures !ok ==> ix == old(ix) && recs == old(recs) && gen == old(gen) && stale == old(stale)
    {
      var built, recs' := BuildIndex(store, packs);
      if built.None? {
        return false;
      }
      FoldWf(packs, store.w.idx);
      ix, recs := built.value, recs';
      gen := gen + 1;
      stale := false;
      ok := true;
    }

    /** `mark_stale`. */
    method MarkStale()
      requires Valid() && store.w.ver > 0
      modifies this`stale, this`etag
      ensures Valid() && stale && etag == None
    {
      stale := true;
      etag := None;
    }

    /** A conditional write lands only on the manifest this copy holds. */
    lemma MatchIsSame(w: World)
      requires InSync(w) && Matches(etag, w) && (w.ver == 0 ==> w.m == NEW)
      ensures m == w.m && Exact(w)
      ensures !stale && (etag.None? ==> m == NEW)
    {
    }

    /** Take over the manifest this server just wrote, its packs unchanged. */
    method Adopt(new_: Manifest, t: nat)
      requires store.Valid() && new_ == store.w.m && t == store.w.ver
      requires Wf(ix) && Recorded(ix, recs) && !stale && Exact(store.w)
      requires new_.packs == m.packs
      modifies this`m, this`etag, this`refs
      ensures Forward(old(m), old(ix), m, ix) || new_.rev <= old(m.rev)
      ensures Valid() && m == new_ && etag == Some(t) && refs == new_.refs && Exact(store.w)
    {
      m := new_;
      etag := Some(t);
      refs := new_.refs;
    }

    method Others()
      requires Valid()
      modifies store
      ensures Valid() && Reaches(store.content, old(store.w), store.w)
      ensures old(store.forgot) <= store.forgot && Remembers(old(store.w).m, store.w.m, store.forgot)
    {
      store.Others();
      RemembersOn(m, old(store.w).m, store.w.m, old(store.forgot), store.forgot);
      ReachesIsLater(store.content, old(store.w), store.w);
      SyncLasts(old(store.w), store.w);
    }

    /** `revalidate`; `due` says that the last look is older than the revalidation interval. */
    method Revalidate(force: bool, due: bool) returns (ok: bool)
      requires Valid()
      modifies this, store
      ensures Valid() && Reaches(store.content, old(store.w), store.w)
      ensures old(store.forgot) <= store.forgot && Remembers(old(store.w).m, store.w.m, store.forgot)
      ensures Forward(old(m), old(ix), m, ix)
      ensures gen >= old(gen) && (gen == old(gen) ==> GrownFrom(old(ix), ix))
      ensures ok && force ==> m == store.w.m && Exact(store.w)
      ensures !ok ==> m == old(m) && refs == old(refs)
    {
      if !force && !stale && !due {
        ReachesSelf(store.content, store.w);
        return true;
      }
      var loaded := store.LoadManifest(etag);
      ReachesIsLater(store.content, old(store.w), store.w);
      RemembersOn(m, old(store.w).m, store.w.m, old(store.forgot), store.forgot);
      SyncLasts(old(store.w), store.w);
      match loaded
      case Unreadable => ok := false;
      case NotModified => ok := true;
      case Missing => ok := etag.None?;
      case Found(new_, t) => ok := Apply(new_, t);
    }
  }

  /** `load`: a repository is first read whole. */
  method Load(store: Store) returns (s: Option<Server>)
    requires store.Valid()
    modifies store
    ensures store.Valid() && Reaches(store.content, old(store.w), store.w)
    ensures s.Some? ==> s.value.store == store && s.value.Valid() && !s.value.stale && s.value.gen == 0
  {
    var loaded := store.LoadManifest(None);
    if loaded.Unreadable? {
      return None;
    }
    var m := if loaded.Found? then loaded.m else NEW;
    var etag := if loaded.Found? then Some(loaded.etag) else None;
    var ix, recs := Server.BuildIndex(store, m.packs);
    if ix.None? {
      return None;
    }
    var server := new Server(store, m, etag, ix.value, recs);
    s := Some(server);
  }
}
