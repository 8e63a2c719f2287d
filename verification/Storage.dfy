/** depot/src/store.rs: the manifest register as one server sees it, with every other server
    acting in between. */
module Storage {
  import opened Common
  import opened Git
  import opened ObjectIndex
  import opened World
  import opened Runs

  /** What writes by any servers can turn one stored repository into. */
  ghost predicate Reaches(content: Contents, w: World, w': World) {
    exists s, acts :: Run(content, s, acts) && s[0] == w && s[|acts|] == w'
  }

  /** What a server may rely on when it looks at storage again. */
  ghost predicate Later(w: World, w': World) {
    && w.ver <= w'.ver && w.m.rev <= w'.m.rev
    && (w.ver == w'.ver || w.m.rev == w'.m.rev ==> w.ver == w'.ver && w.m == w'.m)
    && forall id :: id in w.idx ==> id in w'.idx && w'.idx[id] == w.idx[id]
  }

  ghost function Listed(m: Manifest): (r: set<PackId>)
    ensures forall id :: id in r <==> Lists(m, id)
  {
    (set p | p in m.packs :: p.id) + (set x | x in m.retired :: x.id)
  }

  /** Every pack listed before is listed still, but for those forgotten. */
  ghost predicate Remembers(m: Manifest, m': Manifest, forgot: set<PackId>) {
    forall id :: Lists(m, id) && id !in forgot ==> Lists(m', id)
  }

  lemma RemembersOn(a: Manifest, b: Manifest, c: Manifest, forgot: set<PackId>, more: set<PackId>)
    requires Remembers(a, b, forgot) && Remembers(b, c, more) && forgot <= more
    ensures Remembers(a, c, more)
  {
  }

  lemma StepIsLater(content: Contents, w: World, a: Action)
    requires Enabled(content, w, a)
    ensures Later(w, Do(content, w, a))
    ensures Stored(content, w) ==> Stored(content, Do(content, w, a))
  {
    if Stored(content, w) {
      var w' := Do(content, w, a);
      forall p | p in w'.m.packs ensures p.id in w'.idx {
        assert p in w.m.packs || (a.Push? && a.pack == Some(p)) || (a.Collect? && p == a.plan.merged) || (a.Merge? && p == a.merged);
      }
    }
  }

  lemma {:induction false} RunIsLater(content: Contents, s: seq<World>, acts: seq<Action>, i: nat)
    requires Run(content, s, acts) && i <= |acts|
    ensures Later(s[0], s[i])
    ensures Stored(content, s[0]) ==> Stored(content, s[i])
  {
    if i > 0 {
      RunIsLater(content, s, acts, i - 1);
      StepIsLater(content, s[i - 1], acts[i - 1]);
    }
  }

  lemma ReachesIsLater(content: Contents, w: World, w': World)
    requires Reaches(content, w, w')
    ensures Later(w, w')
    ensures Stored(content, w) ==> Stored(content, w')
  {
    var s, acts :| Run(content, s, acts) && s[0] == w && s[|acts|] == w';
    RunIsLater(content, s, acts, |acts|);
  }

  lemma ReachesSelf(content: Contents, w: World)
    ensures Reaches(content, w, w)
  {
    var acts: seq<Action> := [];
    assert Run(content, [w], acts) && [w][|acts|] == w;
  }

  lemma ReachesStep(content: Contents, w: World, a: Action)
    requires Enabled(content, w, a)
    ensures Reaches(content, w, Do(content, w, a))
  {
    var s, acts := [w, Do(content, w, a)], [a];
    assert Run(content, s, acts) && s[|acts|] == Do(content, w, a);
  }

  lemma ReachesOn(content: Contents, x: World, y: World, z: World)
    requires Reaches(content, x, y) && Reaches(content, y, z)
    ensures Reaches(content, x, z)
  {
    var s, a :| Run(content, s, a) && s[0] == x && s[|a|] == y;
    var t, b :| Run(content, t, b) && t[0] == y && t[|b|] == z;
    hide Enabled, Do, Run;
    RunsJoin(content, s, a, t, b);
    assert Run(content, s + t[1..], a + b) && (s + t[1..])[0] == x && (s + t[1..])[|a + b|] == z;
  }

  lemma RunsJoin(content: Contents, s: seq<World>, a: seq<Action>, t: seq<World>, b: seq<Action>)
    requires Run(content, s, a) && Run(content, t, b) && s[|a|] == t[0]
    ensures var u := s + t[1..]; |u| == |a + b| + 1 && u[0] == s[0] && u[|a + b|] == t[|b|]
    ensures Run(content, s + t[1..], a + b)
  {
    hide Enabled, Do;
    var u, c := s + t[1..], a + b;
    forall i | 0 <= i < |c| ensures Enabled(content, u[i], c[i]) && u[i + 1] == Do(content, u[i], c[i]) {
      if i < |a| {
        assert c[i] == a[i] && u[i] == s[i] && u[i + 1] == s[i + 1];
      } else {
        JoinedAt(s, a, t, b, i - |a|);
      }
    }
  }

  lemma JoinedAt(s: seq<World>, a: seq<Action>, t: seq<World>, b: seq<Action>, k: nat)
    requires |s| == |a| + 1 && |t| == |b| + 1 && k < |b| && s[|a|] == t[0]
    ensures var u, c, i := s + t[1..], a + b, |a| + k; c[i] == b[k] && u[i] == t[k] && u[i + 1] == t[k + 1]
  {
  }

  /** How the network treats one exchange: whether a write gets through, whether its answer
      comes back, whether a read does. */
  datatype Net = Net(delivered: bool, answered: bool, readable: bool)

  datatype Loaded = Unreadable | Missing | NotModified | Found(m: Manifest, etag: nat)

  datatype Saved = SavedOk(etag: nat) | Conflict | Unknown

  predicate Matches(etag: Option<nat>, w: World) {
    if etag.Some? then etag.value == w.ver else w.ver == 0
  }

  class Store {
    var w: World
    var clock: nat
    /** The packs whose records have been dropped so far, by any server. */
    ghost var forgot: set<PackId>
    ghost const content: Contents
    /** What the other servers do to the stored repository at each moment, and what the network does. */
    const others: (nat, World) -> World
    const net: nat -> Net

    ghost predicate Valid()
      reads this
    {
      && Stored(content, w)
      && (w.ver == 0 ==> w.m == NEW)
      && forall k, v :: Reaches(content, v, others(k, v))
    }

    method Others()
      requires Valid()
      modifies this
      ensures Valid() && Reaches(content, old(w), w)
      ensures old(forgot) <= forgot && Remembers(old(w).m, w.m, forgot)
    {
      ReachesIsLater(content, w, others(clock, w));
      forgot := forgot + (Listed(w.m) - Listed(others(clock, w).m));
      w := others(clock, w);
      clock := clock + 1;
    }

    /** `load_manifest`. */
    method LoadManifest(etag: Option<nat>) returns (r: Loaded)
      requires Valid()
      modifies this
      ensures Valid() && Reaches(content, old(w), w)
      ensures old(forgot) <= forgot && Remembers(old(w).m, w.m, forgot)
      ensures r == NotModified ==> etag == Some(w.ver)
      ensures r == Missing ==> w.ver == 0
      ensures r.Found? ==> r.m == w.m && r.etag == w.ver && w.ver > 0
    {
      Others();
      r := if !net(clock).readable then Unreadable
           else if w.ver == 0 then Missing
           else if etag == Some(w.ver) then NotModified
           else Found(w.m, w.ver);
    }

    /** `get_idx`. */
    method GetIdx(id: PackId) returns (r: Option<seq<Entry>>)
      modifies this`clock
      ensures r.Some? ==> id in w.idx && r.value == w.idx[id]
    {
      clock := clock + 1;
      r := if net(clock).readable && id in w.idx then Some(w.idx[id]) else None;
    }

    /** A pack and its index are written once, under an id nobody else uses. */
    method PutPack(id: PackId, entries: seq<Entry>) returns (ok: bool)
      requires Valid() && id !in w.idx && Addressed(entries, content) && StandsAlone(entries)
      modifies this`w, this`clock
      ensures Valid() && Reaches(content, old(w), w) && w.m == old(w).m
      ensures ok ==> id in w.idx && w.idx[id] == entries
    {
      ok := net(clock).delivered && net(clock).answered;
      if net(clock).delivered {
        ReachesStep(content, w, Upload(id, entries));
        StepIsLater(content, w, Upload(id, entries));
        w := w.(idx := w.idx[id := entries]);
      } else {
        ReachesSelf(content, w);
      }
      clock := clock + 1;
    }

    /** `save_manifest`: one conditional write, sent once. When it is refused or its outcome
        is unknown the stored manifest is read back, and finding our own write there means it
        landed. The write lands only over the manifest the caller read; `Conflict` can still mean
        that it landed and was built upon since, and `Unknown` says nothing either way. */
    method SaveManifest(m: Manifest, etag: Option<nat>, ghost a: Action) returns (r: Saved, ghost landed: bool)
      requires Valid()
      requires Matches(etag, w) ==> Enabled(content, w, a) && Do(content, w, a) == Written(w, m)
      modifies this
      ensures Valid() && Reaches(content, old(w), w)
      ensures old(forgot) <= forgot && Remembers(old(w).m, w.m, forgot)
      ensures landed ==> Matches(etag, old(w)) && Reaches(content, Written(old(w), m), w)
      ensures landed ==> Remembers(Written(old(w), m).m, w.m, forgot)
      ensures r.SavedOk? ==> landed && w.ver == r.etag == old(w).ver + 1 && w.m == m.(rev := old(w).m.rev + 1)
      ensures r.Conflict? && landed ==> w.ver > old(w).ver + 1
    {
      landed := false;
      ReachesSelf(content, w);
      var mine: Option<nat> := None;
      if net(clock).delivered && Matches(etag, w) {
        ReachesStep(content, w, a);
        StepIsLater(content, w, a);
        forgot := forgot + (Listed(w.m) - Listed(Written(w, m).m));
        w := Written(w, m);
        ReachesSelf(content, w);
        mine, landed := Some(w.ver), true;
        if net(clock).answered {
          return SavedOk(w.ver), landed;
        }
      }
      ghost var before := w;
      Others();
      ReachesOn(content, old(w), before, w);
      ReachesIsLater(content, before, w);
      if !net(clock).readable || (w.ver == 0 && !net(clock).answered) {
        return Unknown, landed;
      }
      // our nonce is in the stored manifest exactly when it is the version we wrote
      r := if mine == Some(w.ver) then SavedOk(w.ver) else Conflict;
    }
  }
}
