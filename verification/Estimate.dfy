/** The two memos of a loaded repository: what a collection would keep (depot/src/gc.rs,
    `assess`) and what readers may fetch (depot/src/app.rs, `Repo::reach`). */
module Estimate {
  import opened Common
  import opened Git
  import opened ObjectIndex
  import opened World
  import opened Servers
  import opened Collector
  import opened SetSize

  /** The dropped values live at two cutoffs are nested, so equally many are the same ones. */
  lemma {:induction false} KeptIsNested(dropped: seq<Dropped>, earlier: nat, later: nat)
    requires earlier <= later
    ensures |Kept(dropped, later)| <= |Kept(dropped, earlier)|
    ensures |Kept(dropped, later)| == |Kept(dropped, earlier)| ==> Kept(dropped, later) == Kept(dropped, earlier)
  {
    if dropped != [] {
      KeptIsNested(dropped[1..], earlier, later);
    }
  }

  lemma SameCountSameKept(dropped: seq<Dropped>, a: nat, b: nat)
    requires |Kept(dropped, a)| == |Kept(dropped, b)|
    ensures Kept(dropped, a) == Kept(dropped, b)
  {
    if a <= b { KeptIsNested(dropped, a, b); } else { KeptIsNested(dropped, b, a); }
  }

  /** Stored bytes of the objects below `n` that are in `keep`. */
  function KeptBytes(ix: Index, keep: set<nat>, n: nat): nat
    requires n <= |ix.objs|
  {
    if n == 0 then 0 else KeptBytes(ix, keep, n - 1) + (if n - 1 in keep then ix.objs[n - 1].len else 0)
  }

  /** Objects and bytes a collection at `cutoff` would keep, computed afresh. */
  ghost function WouldKeep(ix: Index, m: Manifest, cutoff: nat): (nat, nat)
    requires Wf(ix)
  {
    var keep := Needed(ix, m, cutoff);
    (|keep|, KeptBytes(ix, keep, |ix.objs|))
  }

  ghost function Served(ix: Index, m: Manifest): set<nat>
    requires Wf(ix)
  {
    Closure(ix, Tips(ix, m.refs.Values))
  }

  function PackBytes(packs: seq<PackMeta>): nat {
    if packs == [] then 0 else (if packs[0].len >= 32 then packs[0].len - 32 else 0) + PackBytes(packs[1..])
  }

  // --- what the bytes are ---------------------------------------------------------------

  function LenSum(es: seq<Entry>): nat {
    if es == [] then 0 else LenSum(es[..|es| - 1]) + es[|es| - 1].len
  }

  /** Entries fill a pack but for its header, its checksum and the frame it is sealed in. */
  ghost predicate Filled(p: PackMeta, es: seq<Entry>) {
    p.len == LenSum(es) + 32
  }

  /** Every pack is filled, and no object is stored twice. */
  ghost predicate Dense(packs: seq<PackMeta>, idx: map<PackId, seq<Entry>>)
    decreases |packs|
  {
    packs == [] ||
    var last, init := packs[|packs| - 1], packs[..|packs| - 1];
    var es := EntriesOf(idx, last.id);
    && Dense(init, idx) && Filled(last, es) && Distinct(Oids(es))
    && forall o :: o in Oids(es) ==> o !in Held(init, idx)
  }

  lemma {:induction false} AllFresh(oids: seq<Oid>, es: seq<Entry>)
    requires Distinct(Oids(es)) && forall o :: o in Oids(es) ==> o !in oids
    ensures Fresh(oids, es) == es
    decreases |es|
  {
    if es != [] {
      var more := oids + [es[0].oid];
      assert Oids(es)[0] == es[0].oid && es[0].oid in Oids(es);
      forall o | o in Oids(es[1..]) ensures o !in more {
        var k :| 0 <= k < |es[1..]| && Oids(es[1..])[k] == o;
        assert Oids(es)[k + 1] == o && Oids(es)[0] != o;
      }
      forall i, j | 0 <= i < j < |es[1..]| ensures Oids(es[1..])[i] != Oids(es[1..])[j] {
        assert Oids(es)[i + 1] != Oids(es)[j + 1];
      }
      AllFresh(more, es[1..]);
      assert es == [es[0]] + es[1..];
    }
  }

  lemma {:induction false} PackBytesLast(packs: seq<PackMeta>, p: PackMeta)
    ensures PackBytes(packs + [p]) == PackBytes(packs) + (if p.len >= 32 then p.len - 32 else 0)
    decreases |packs|
  {
    if packs == [] {
      assert packs + [p] == [p] && [p][1..] == [];
    } else {
      assert (packs + [p])[1..] == packs[1..] + [p];
      PackBytesLast(packs[1..], p);
    }
  }

  lemma {:induction false} BytesAdded(ix: Index, ix': Index, added: seq<Entry>, all: set<nat>, n: nat)
    requires Adds(ix, ix', added) && n <= |added| && forall i :: 0 <= i < |ix'.objs| ==> i in all
    ensures KeptBytes(ix', all, |ix.objs| + n) == KeptBytes(ix', all, |ix.objs|) + LenSum(added[..n])
    decreases n
  {
    if n > 0 {
      BytesAdded(ix, ix', added, all, n - 1);
      assert added[..n][..n - 1] == added[..n - 1];
      assert ix'.objs[|ix.objs| + (n - 1)] == Linked(ix'.oids, |ix.packs|, added[n - 1]);
    }
  }

  lemma {:induction false} BytesSame(ix: Index, ix': Index, a: set<nat>, b: set<nat>, n: nat)
    requires n <= |ix.objs| && n <= |ix'.objs| && forall i :: 0 <= i < n ==> ix'.objs[i].len == ix.objs[i].len && (i in a <==> i in b)
    ensures KeptBytes(ix, a, n) == KeptBytes(ix', b, n)
    decreases n
  {
    if n > 0 {
      BytesSame(ix, ix', a, b, n - 1);
    }
  }

  lemma OnePackMore(ix: Index, ix': Index, es: seq<Entry>)
    requires Wf(ix) && Wf(ix') && Adds(ix, ix', es)
    ensures KeptBytes(ix', Positions(ix'), |ix'.objs|) == KeptBytes(ix, Positions(ix), |ix.objs|) + LenSum(es)
  {
    hide KeptBytes, LenSum, Linked, Distinct;
    BytesAdded(ix, ix', es, Positions(ix'), |es|);
    BytesSame(ix, ix', Positions(ix), Positions(ix'), |ix.objs|);
    assert es[..|es|] == es;
  }

  lemma LastPack(packs: seq<PackMeta>, idx: map<PackId, seq<Entry>>)
    requires packs != [] && FoldOk(packs, idx) && Dense(packs, idx)
    ensures var last, init := packs[|packs| - 1], packs[..|packs| - 1];
            var es := EntriesOf(idx, last.id);
            && FoldOk(init, idx) && Dense(init, idx) && Wf(Fold(init, idx))
            && Adds(Fold(init, idx), Fold(packs, idx), es)
            && PackBytes(packs) == PackBytes(init) + LenSum(es)
  {
    hide AddPack, Fresh, Distinct, Held, Wf, LenSum, PackBytes, EntriesOf, Adds;
    var last, init := packs[|packs| - 1], packs[..|packs| - 1];
    var es := EntriesOf(idx, last.id);
    FoldWf(init, idx);
    FoldHolds(init, idx);
    AllFresh(Fold(init, idx).oids, es);
    AddPackAdds(Fold(init, idx), last.id, es);
    PackBytesLast(init, last);
    assert packs == init + [last];
  }

  /** The bytes of all objects are those of the packs. */
  lemma {:induction false} AllBytes(packs: seq<PackMeta>, idx: map<PackId, seq<Entry>>)
    requires FoldOk(packs, idx) && Dense(packs, idx)
    ensures Wf(Fold(packs, idx)) && KeptBytes(Fold(packs, idx), Positions(Fold(packs, idx)), |Fold(packs, idx).objs|) == PackBytes(packs)
    decreases |packs|
  {
    hide *;
    FoldWf(packs, idx);
    if packs == [] {
      NoBytes(idx);
    } else {
      LastPack(packs, idx);
      AllBytes(packs[..|packs| - 1], idx);
      OnePackMore(Fold(packs[..|packs| - 1], idx), Fold(packs, idx), EntriesOf(idx, packs[|packs| - 1].id));
    }
  }

  lemma NoBytes(idx: map<PackId, seq<Entry>>)
    ensures Wf(Fold([], idx)) && KeptBytes(Fold([], idx), Positions(Fold([], idx)), |Fold([], idx).objs|) == PackBytes([])
  {
  }

  lemma {:induction false} BytesSplit(ix: Index, keep: set<nat>, all: set<nat>, n: nat)
    requires n <= |ix.objs| && forall i :: 0 <= i < n ==> i in all
    ensures KeptBytes(ix, keep, n) + KeptBytes(ix, all - keep, n) == KeptBytes(ix, all, n)
    decreases n
  {
    if n > 0 {
      BytesSplit(ix, keep, all, n - 1);
    }
  }

  /** The bytes reported are just those of the objects a collection would leave out, where the packs
      are filled and hold nothing twice. */
  lemma GarbageIsWhatGoes(m: Manifest, idx: map<PackId, seq<Entry>>, cutoff: nat)
    requires FoldOk(m.packs, idx) && Dense(m.packs, idx)
    ensures var ix := Fold(m.packs, idx);
            && Wf(ix) && PackBytes(m.packs) >= WouldKeep(ix, m, cutoff).1
            && PackBytes(m.packs) - WouldKeep(ix, m, cutoff).1 == KeptBytes(ix, Positions(ix) - Needed(ix, m, cutoff), |ix.objs|)
  {
    AllBytes(m.packs, idx);
    var ix := Fold(m.packs, idx);
    hide Fold, FoldOk, Dense, Needed, KeptBytes;
    BytesSplit(ix, Needed(ix, m, cutoff), Positions(ix), |ix.objs|);
  }

  datatype Garbage = Garbage(objects: nat, bytes: nat, expired: nat, keptDrops: nat)

  datatype GcKey = GcKey(rev: nat, len: nat, live: nat)

  class Memos {
    var gcCache: Option<(GcKey, (nat, nat))>
    var reachCache: Option<((nat, nat), set<nat>)>

    constructor ()
      ensures gcCache == None && reachCache == None
    {
      gcCache, reachCache := None, None;
    }

    /** A memo is of this revision only if it is no longer than the index, and it tells
        the truth when it is exactly as long. */
    ghost predicate Valid(m: Manifest, ix: Index)
      reads this
    {
      && Wf(ix)
      && (gcCache.Some? ==>
            var (key, v) := gcCache.value;
            key.rev <= m.rev && (key.rev == m.rev ==> key.len <= |ix.oids| && (key.len == |ix.oids| ==>
              forall cutoff :: |Kept(m.dropped, cutoff)| == key.live ==> v == WouldKeep(ix, m, cutoff))))
      && (reachCache.Some? ==>
            var (key, v) := reachCache.value;
            key.0 <= m.rev && (key.0 == m.rev ==> key.1 <= |ix.oids| && (key.1 == |ix.oids| ==> v == Served(ix, m))))
    }

    /** Nothing a loaded repository does makes a memo lie. */
    lemma StaysValid(m: Manifest, ix: Index, m': Manifest, ix': Index)
      requires Valid(m, ix) && Wf(ix') && Forward(m, ix, m', ix')
      ensures Valid(m', ix')
    {
    }

    /** `assess`: whichever cutoff filled the memo, the answer is the one a fresh closure
        gives for this cutoff. */
    method Assess(m: Manifest, ix: Index, cutoff: nat) returns (g: Garbage)
      requires Valid(m, ix)
      modifies this`gcCache
      ensures Valid(m, ix)
      ensures var (n, bytes) := WouldKeep(ix, m, cutoff);
              && n <= |ix.oids|
              && g.objects == |ix.oids| - n
              && g.bytes == (if PackBytes(m.packs) >= bytes then PackBytes(m.packs) - bytes else 0)
              && g.keptDrops == |Kept(m.dropped, cutoff)|
              && g.expired == |m.dropped| - g.keptDrops
    {
      var live := |Kept(m.dropped, cutoff)|;
      var key := GcKey(m.rev, |ix.oids|, live);
      var kept: (nat, nat);
      if gcCache.Some? && gcCache.value.0 == key {
        kept := gcCache.value.1;
      } else {
        kept := Count(m, ix, cutoff);
        forall other | |Kept(m.dropped, other)| == live ensures kept == WouldKeep(ix, m, other) {
          SameCountSameKept(m.dropped, other, cutoff);
        }
        gcCache := Some((key, kept));
      }
      SubsetSize(Needed(ix, m, cutoff), Positions(ix));
      var stored := PackBytes(m.packs);
      g := Garbage(|ix.oids| - kept.0, if stored >= kept.1 then stored - kept.1 else 0, |m.dropped| - live, live);
    }

    static method Count(m: Manifest, ix: Index, cutoff: nat) returns (kept: (nat, nat))
      requires Wf(ix)
      ensures kept == WouldKeep(ix, m, cutoff)
    {
      var tips := TipsOf(ix, m.refs, Kept(m.dropped, cutoff));
      var keep := ComputeClosure(ix, tips);
      kept := Sum(ix, keep);
    }

    static method Sum(ix: Index, keep: set<nat>) returns (kept: (nat, nat))
      requires forall i :: i in keep ==> i < |ix.objs|
      ensures kept == (|keep|, KeptBytes(ix, keep, |ix.objs|))
    {
      var n, bytes, i := 0, 0, 0;
      ghost var counted: set<nat> := {};
      while i < |ix.objs|
        invariant i <= |ix.objs|
        invariant counted == (set j | j in keep && j < i) && n == |counted|
        invariant bytes == KeptBytes(ix, keep, i)
      {
        if i in keep {
          n := n + 1;
          bytes := bytes + ix.objs[i].len;
          counted := counted + {i};
        }
        i := i + 1;
      }
      assert counted == keep;
      kept := (n, bytes);
    }

    /** `reach`: what is served is what the refs reach now. */
    method Reach(m: Manifest, ix: Index) returns (b: set<nat>)
      requires Valid(m, ix)
      modifies this`reachCache
      ensures Valid(m, ix) && b == Served(ix, m)
    {
      var key := (m.rev, |ix.oids|);
      if reachCache.Some? && reachCache.value.0 == key {
        return reachCache.value.1;
      }
      var tips := TipsOf(ix, m.refs, []);
      assert m.refs.Values + DroppedIds([]) == m.refs.Values;
      b := ComputeClosure(ix, tips);
      reachCache := Some((key, b));
    }
  }
}
