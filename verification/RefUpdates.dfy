/** depot/src/git/receive.rs, `check`, `judge` and `df_conflict`, and the loop of
    depot/src/push.rs that makes the accepted updates and keeps what they overwrite. */
module RefUpdates {
  import opened Common
  import opened Git
  import opened ObjectIndex
  import World

  type Refs = map<string, Oid>

  /** The most values kept, and the most commands one push may bring. */
  const MAX_DROPPED := 20_000
  const MAX_COMMANDS := 10_000

  /** One ref update; the zero id is None. */
  datatype Command = Command(name: string, was: Option<Oid>, now: Option<Oid>)

  /** What commands are judged by: the kinds of objects incoming or stored, which commit
      descends from which, and the protected refs. */
  datatype Grounds = Grounds(kind: Oid -> Option<Kind>, descends: (Oid, Oid) -> bool, guarded: string -> bool)

  /** What judging needs besides the objects at hand: descent in an index and the objects the
      push brings, and the protected refs. */
  datatype Rules = Rules(descends: (Index, Oid, Oid) -> bool, guarded: string -> bool)

  /** `Incoming::kind`: an object the push brings, the first copy of it, or one stored. */
  function KindOf(ix: Index, entries: seq<Entry>, o: Oid): (r: Option<Kind>)
    ensures r.Some? ==> o in Oids(entries) || o in ix.oids
    ensures o in Oids(entries) || (Wf(ix) && o in ix.oids) ==> r.Some?
  {
    var new_, old_ := Position(Oids(entries), o), Position(ix.oids, o);
    if new_.Some? then Some(entries[new_.value].kind)
    else if old_.Some? && old_.value < |ix.objs| then Some(ix.objs[old_.value].kind)
    else None
  }

  function GroundsOf(ix: Index, entries: seq<Entry>, rules: Rules): Grounds {
    Grounds((o: Oid) => KindOf(ix, entries, o), (a: Oid, b: Oid) => rules.descends(ix, a, b), rules.guarded)
  }

  datatype Refusal =
    | FunnyName | StaleInfo | NothingToDelete | DeletesProtected | Missing | NotACommit | NotFastForward
    | Coexists(name: string)

  function Current(refs: Refs, name: string): Option<Oid> {
    if name in refs then Some(refs[name]) else None
  }

  predicate FastForward(old_: Oid, new_: Oid, g: Grounds) {
    g.kind(new_) == Some(Commit) && g.kind(old_) == Some(Commit) && g.descends(old_, new_)
  }

  /** `check`: one command against its ref's current value. */
  function Check(c: Command, cur: Option<Oid>, g: Grounds): Option<Refusal> {
    if !ValidRefname(c.name) then Some(FunnyName)
    else if cur != c.was then
      if cur == c.now then None else Some(StaleInfo)
    else if c.now.None? then
      if c.was.None? then Some(NothingToDelete) else if g.guarded(c.name) then Some(DeletesProtected) else None
    else if g.kind(c.now.value).None? then Some(Missing)
    else if "refs/heads/" <= c.name && g.kind(c.now.value) != Some(Commit) then Some(NotACommit)
    else if g.guarded(c.name) && c.was.Some? && !FastForward(c.was.value, c.now.value, g) then Some(NotFastForward)
    else None
  }

  /** What may become of a ref: a head holds a commit, every new value is at hand, and a protected
      ref goes nowhere but forward. */
  predicate Lawful(name: string, old_: Option<Oid>, new_: Option<Oid>, g: Grounds) {
    && (new_.Some? ==> g.kind(new_.value).Some? && ("refs/heads/" <= name ==> g.kind(new_.value) == Some(Commit)))
    && (g.guarded(name) && old_.Some? ==> new_.Some? && FastForward(old_.value, new_.value, g))
  }

  /** A well-named command passes by itself exactly if it is a repeat of what was done, or says what
      the ref holds and asks for a lawful change of it, not nothing of nothing. */
  lemma PassesIff(c: Command, cur: Option<Oid>, g: Grounds)
    ensures Check(c, cur, g) == None
       <==> ValidRefname(c.name)
            && if cur != c.was then cur == c.now else Lawful(c.name, cur, c.now, g) && (cur.Some? || c.now.Some?)
  {
    hide ValidRefname;
  }

  /** And a refusal says what is wrong. */
  lemma RefusalTellsWhy(c: Command, cur: Option<Oid>, g: Grounds)
    requires Check(c, cur, g).Some?
    ensures match Check(c, cur, g).value
            case FunnyName => !ValidRefname(c.name)
            case StaleInfo => cur != c.was && cur != c.now
            case NothingToDelete => cur.None? && c.now.None?
            case DeletesProtected => cur.Some? && c.now.None? && g.guarded(c.name)
            case Missing => c.now.Some? && g.kind(c.now.value).None?
            case NotACommit => "refs/heads/" <= c.name && c.now.Some? && g.kind(c.now.value).Some? && g.kind(c.now.value) != Some(Commit)
            case NotFastForward => g.guarded(c.name) && cur.Some? && c.now.Some? && !FastForward(cur.value, c.now.value, g)
            case Coexists(_) => false
  {
    hide ValidRefname;
  }

  function Checks(cmds: seq<Command>, refs: Refs, g: Grounds): (r: seq<Option<Refusal>>)
    ensures |r| == |cmds|
    ensures forall i :: 0 <= i < |cmds| ==> r[i] == Check(cmds[i], Current(refs, cmds[i].name), g)
  {
    seq(|cmds|, i requires 0 <= i < |cmds| => Check(cmds[i], Current(refs, cmds[i].name), g))
  }

  function Put(refs: Refs, c: Command): Refs {
    if c.now.None? then refs - {c.name} else refs[c.name := c.now.value]
  }

  /** The refs if the first `n` commands that passed were all made. */
  function After(cmds: seq<Command>, out: seq<Option<Refusal>>, refs: Refs, n: nat): Refs
    requires |out| == |cmds| && n <= |cmds|
  {
    if n == 0 then refs
    else
      var before := After(cmds, out, refs, n - 1);
      if out[n - 1].None? then Put(before, cmds[n - 1]) else before
  }

  // --- directories and files ------------------------------------------------------------

  /** Two refs git cannot store together: one is a directory of the other. */
  predicate Clashes(a: string, b: string) {
    a + "/" <= b || b + "/" <= a
  }

  ghost predicate ClashFree(refs: Refs) {
    forall a, b :: a in refs && b in refs ==> !Clashes(a, b)
  }

  /** The order of the ref map. */
  predicate UpTo(a: string, b: string) {
    a == "" || (b != "" && (a[0] < b[0] || (a[0] == b[0] && UpTo(a[1..], b[1..]))))
  }

  lemma {:induction false} UpToTotal(a: string, b: string)
    ensures UpTo(a, b) || UpTo(b, a)
  {
    if a != "" && b != "" {
      UpToTotal(a[1..], b[1..]);
    }
  }

  lemma {:induction false} UpToOn(a: string, b: string, c: string)
    requires UpTo(a, b) && UpTo(b, c)
    ensures UpTo(a, c)
  {
    if a != "" && a[0] == b[0] == c[0] {
      UpToOn(a[1..], b[1..], c[1..]);
    }
  }

  lemma {:induction false} PrefixIsUpTo(dir: string, k: string)
    requires dir <= k
    ensures UpTo(dir, k)
  {
    if dir != "" {
      assert dir[1..] <= k[1..];
      PrefixIsUpTo(dir[1..], k[1..]);
    }
  }

  /** The names in a directory are those right after it: the first name from the directory on
      lies in it if any does. */
  lemma {:induction false} DirectoryIsARun(dir: string, first: string, k: string)
    requires dir <= k && UpTo(dir, first) && UpTo(first, k)
    ensures dir <= first
  {
    if dir != "" {
      assert dir[0] == k[0] == first[0];
      assert dir[1..] <= k[1..];
      DirectoryIsARun(dir[1..], first[1..], k[1..]);
      assert dir == [dir[0]] + dir[1..] && first == [first[0]] + first[1..];
    }
  }

  /** `range(from..).next()`. */
  method FirstFrom(refs: Refs, from: string) returns (r: Option<string>)
    ensures r.None? ==> forall k :: k in refs ==> !UpTo(from, k)
    ensures r.Some? ==> r.value in refs && UpTo(from, r.value) && forall k :: k in refs && UpTo(from, k) ==> UpTo(r.value, k)
  {
    r := None;
    var left := refs.Keys;
    while left != {}
      invariant left <= refs.Keys
      invariant r.None? ==> forall k :: k in refs.Keys - left ==> !UpTo(from, k)
      invariant r.Some? ==> r.value in refs && UpTo(from, r.value)
      invariant r.Some? ==> forall k :: k in refs.Keys - left && UpTo(from, k) ==> UpTo(r.value, k)
      decreases |left|
    {
      var n :| n in left;
      left := left - {n};
      UpToTotal(n, n);
      if UpTo(from, n) {
        if r.None? {
          r := Some(n);
        } else if UpTo(n, r.value) {
          forall k | k in refs.Keys - left && UpTo(from, k) ensures UpTo(n, k) {
            if k != n {
              UpToOn(n, r.value, k);
            }
          }
          r := Some(n);
        } else {
          UpToTotal(n, r.value);
        }
      }
    }
  }

  lemma KeyAtSlash(k: string, name: string)
    requires k + "/" <= name
    ensures |k| < |name| && name[|k|] == '/' && name[..|k|] == k
  {
    assert (k + "/")[|k|] == '/';
    assert name[..|k|] == (k + "/")[..|k|];
  }

  /** `df_conflict`: each directory above the name is looked up, and one look into the order
      finds whether anything lies below it. */
  method DfConflict(name: string, refs: Refs) returns (r: Option<string>)
    ensures r.Some? ==> r.value in refs && Clashes(name, r.value)
    ensures r.None? ==> forall k :: k in refs ==> !Clashes(name, k)
  {
    for i := 0 to |name|
      invariant forall k :: k in refs && k + "/" <= name ==> |k| >= i
    {
      if name[i] == '/' && name[..i] in refs {
        assert name[..i] + "/" == name[..i + 1];
        return Some(name[..i]);
      }
      forall k | k in refs && k + "/" <= name ensures |k| >= i + 1 {
        KeyAtSlash(k, name);
      }
    }
    var dir := name + "/";
    var first := FirstFrom(refs, dir);
    forall k | k in refs && dir <= k
      ensures first.Some? && dir <= first.value
    {
      PrefixIsUpTo(dir, k);
      DirectoryIsARun(dir, first.value, k);
    }
    r := if first.Some? && dir <= first.value then first else None;
  }

  // --- judging a push -------------------------------------------------------------------

  /** A command stands if it passes by itself and what it sets would clash with nothing that
      the commands passing by themselves would leave. */
  ghost predicate Accepted(cmds: seq<Command>, refs: Refs, g: Grounds, i: nat)
    requires i < |cmds|
  {
    && Check(cmds[i], Current(refs, cmds[i].name), g) == None
    && (cmds[i].now.Some? ==>
          forall k :: k in After(cmds, Checks(cmds, refs, g), refs, |cmds|) ==> !Clashes(cmds[i].name, k))
  }

  ghost predicate Judged(cmds: seq<Command>, refs: Refs, g: Grounds, out: seq<Option<Refusal>>) {
    |out| == |cmds| && forall i :: 0 <= i < |cmds| ==> (out[i] == None <==> Accepted(cmds, refs, g, i))
  }

  /** `judge`. A refusal names the command's own fault, or a ref it would clash with. */
  method Judge(cmds: seq<Command>, refs: Refs, g: Grounds) returns (out: seq<Option<Refusal>>)
    ensures Judged(cmds, refs, g, out)
    ensures forall i :: 0 <= i < |cmds| && out[i].Some? ==>
                          out[i] == Check(cmds[i], Current(refs, cmds[i].name), g)
                          || (out[i].value.Coexists? && Clashes(cmds[i].name, out[i].value.name))
  {
    hide Check, Clashes, Put;
    ghost var all := Checks(cmds, refs, g);
    out := [];
    for i := 0 to |cmds|
      invariant |out| == i && out == all[..i]
    {
      out := out + [Check(cmds[i], Current(refs, cmds[i].name), g)];
    }
    var after := refs;
    for i := 0 to |cmds|
      invariant out == all && after == After(cmds, all, refs, i)
    {
      if out[i].None? {
        after := Put(after, cmds[i]);
      }
    }
    for i := 0 to |cmds|
      invariant |out| == |cmds| && out[i..] == all[i..]
      invariant forall k :: 0 <= k < i ==> (out[k] == None <==> Accepted(cmds, refs, g, k))
      invariant forall k :: 0 <= k < i && out[k].Some? ==>
                              out[k] == all[k] || (out[k].value.Coexists? && Clashes(cmds[k].name, out[k].value.name))
    {
      assert out[i] == all[i] by { assert out[i..][0] == all[i..][0]; }
      assert out[i + 1..] == all[i + 1..] by { assert out[i..][1..] == all[i..][1..]; }
      if out[i].None? && cmds[i].now.Some? {
        var other := DfConflict(cmds[i].name, after);
        if other.Some? {
          out := out[i := Some(Coexists(other.value))];
        }
      }
    }
  }

  // --- making the updates ---------------------------------------------------------------

  /** Accepted, and not already so. */
  predicate Applies(c: Command, o: Option<Refusal>, before: Refs) {
    o.None? && Current(before, c.name) == c.was
  }

  /** The refs once the first `n` commands are through. */
  function Updated(cmds: seq<Command>, out: seq<Option<Refusal>>, before: Refs, n: nat): Refs
    requires |out| == |cmds| && n <= |cmds|
  {
    if n == 0 then before
    else
      var refs := Updated(cmds, out, before, n - 1);
      if Applies(cmds[n - 1], out[n - 1], before) then Put(refs, cmds[n - 1]) else refs
  }

  /** `dropped`: an update loses its old value unless the new one descends from it. */
  predicate Drops(c: Command, g: Grounds) {
    c.was.Some? && (c.now.None? || !FastForward(c.was.value, c.now.value, g))
  }

  function DroppedBy(cmds: seq<Command>, out: seq<Option<Refusal>>, before: Refs, g: Grounds, at: nat, n: nat): (r: seq<World.Dropped>)
    requires |out| == |cmds| && n <= |cmds|
    ensures |r| <= n
  {
    if n == 0 then []
    else
      var c := cmds[n - 1];
      DroppedBy(cmds, out, before, g, at, n - 1)
      + if Applies(c, out[n - 1], before) && Drops(c, g) then [World.Dropped(c.was.value, c.name, at)] else []
  }

  /** The oldest go early. */
  function Capped(dropped: seq<World.Dropped>): (r: seq<World.Dropped>)
    ensures forall d :: d in r ==> d in dropped
    ensures |r| <= MAX_DROPPED
  {
    if |dropped| > MAX_DROPPED then dropped[|dropped| - MAX_DROPPED..] else dropped
  }

  method Update(cmds: seq<Command>, out: seq<Option<Refusal>>, before: Refs, was: seq<World.Dropped>, g: Grounds, at: nat)
    returns (refs: Refs, dropped: seq<World.Dropped>)
    requires |out| == |cmds|
    ensures refs == Updated(cmds, out, before, |cmds|)
    ensures dropped == Capped(was + DroppedBy(cmds, out, before, g, at, |cmds|))
  {
    hide Drops, Put;
    refs, dropped := before, was;
    for i := 0 to |cmds|
      invariant refs == Updated(cmds, out, before, i)
      invariant dropped == was + DroppedBy(cmds, out, before, g, at, i)
    {
      var c := cmds[i];
      if out[i].None? && Current(before, c.name) == c.was {
        if Drops(c, g) {
          DropsHadAValue(c, g);
          dropped := dropped + [World.Dropped(c.was.value, c.name, at)];
        }
        refs := Put(refs, c);
      }
    }
    if |dropped| > MAX_DROPPED {
      dropped := dropped[|dropped| - MAX_DROPPED..];
    }
  }

  lemma DropsHadAValue(c: Command, g: Grounds)
    requires Drops(c, g)
    ensures c.was.Some?
  {
  }

  // --- what a push leaves ---------------------------------------------------------------

  ghost predicate AllKnown(refs: Refs, before: Refs, g: Grounds) {
    forall name :: name in refs ==> refs[name] in before.Values || g.kind(refs[name]).Some?
  }

  /** Every value the refs hold was one of theirs, or is an object incoming or stored. */
  lemma {:induction false} ValuesAreKnown(cmds: seq<Command>, refs: Refs, g: Grounds, out: seq<Option<Refusal>>, n: nat)
    requires Judged(cmds, refs, g, out) && n <= |cmds|
    ensures AllKnown(Updated(cmds, out, refs, n), refs, g)
  {
    hide Accepted, FastForward, Check;
    if n > 0 {
      ValuesAreKnown(cmds, refs, g, out, n - 1);
      var c := cmds[n - 1];
      if Applies(c, out[n - 1], refs) && c.now.Some? {
        AcceptedPasses(cmds, refs, g, n - 1);
        PassingIsKnown(c, g);
      }
    }
  }

  lemma PassingIsKnown(c: Command, g: Grounds)
    requires Check(c, c.was, g) == None && c.now.Some?
    ensures g.kind(c.now.value).Some?
  {
  }

  lemma AcceptedPasses(cmds: seq<Command>, refs: Refs, g: Grounds, i: nat)
    requires i < |cmds|
    ensures Accepted(cmds, refs, g, i) ==> Check(cmds[i], Current(refs, cmds[i].name), g) == None
  {
  }

  /** A protected ref is never deleted and never rewound, whatever the commands. */
  lemma {:induction false} GuardedOnlyAdvance(cmds: seq<Command>, refs: Refs, g: Grounds, out: seq<Option<Refusal>>, n: nat, name: string)
    requires Judged(cmds, refs, g, out) && n <= |cmds| && name in refs && g.guarded(name)
    ensures var after := Updated(cmds, out, refs, n);
            name in after && (after[name] == refs[name] || FastForward(refs[name], after[name], g))
  {
    hide Accepted, FastForward, Check;
    if n > 0 {
      GuardedOnlyAdvance(cmds, refs, g, out, n - 1, name);
      var c := cmds[n - 1];
      if Applies(c, out[n - 1], refs) && c.name == name {
        AcceptedPasses(cmds, refs, g, n - 1);
        PassesIff(c, Current(refs, name), g);
      }
    }
  }

  /** A head holds what it held, or a commit; and no ref comes to be but well named. */
  lemma {:induction false} HeadsAreCommits(cmds: seq<Command>, refs: Refs, g: Grounds, out: seq<Option<Refusal>>, n: nat, name: string)
    requires Judged(cmds, refs, g, out) && n <= |cmds| && name in Updated(cmds, out, refs, n)
    ensures var now := Updated(cmds, out, refs, n)[name];
            || Current(refs, name) == Some(now)
            || (ValidRefname(name) && ("refs/heads/" <= name ==> g.kind(now) == Some(Commit)))
  {
    hide Accepted, FastForward, Check, ValidRefname;
    if n > 0 {
      var c := cmds[n - 1];
      if Applies(c, out[n - 1], refs) && c.name == name {
        AcceptedPasses(cmds, refs, g, n - 1);
        PassesIff(c, Current(refs, name), g);
      } else {
        HeadsAreCommits(cmds, refs, g, out, n - 1, name);
      }
    }
  }

  /** What is recorded as dropped was a ref's value. */
  lemma {:induction false} DroppedWereRefs(cmds: seq<Command>, out: seq<Option<Refusal>>, before: Refs, g: Grounds, at: nat, n: nat)
    requires |out| == |cmds| && n <= |cmds|
    ensures forall d :: d in DroppedBy(cmds, out, before, g, at, n) ==> d.name in before && d.id == before[d.name]
  {
    hide FastForward;
    if n > 0 {
      DroppedWereRefs(cmds, out, before, g, at, n - 1);
    }
  }

  /** A ref's value after a push: as it was, recorded as dropped, or an ancestor of the new one. */
  ghost predicate Accounted(name: string, before: Refs, after: Refs, dropped: seq<World.Dropped>, g: Grounds)
    requires name in before
  {
    || Current(after, name) == Some(before[name])
    || (exists d :: d in dropped && d.name == name && d.id == before[name])
    || (name in after && FastForward(before[name], after[name], g))
  }

  /** No value a push takes from a ref is lost at once, whatever its commands. */
  lemma {:induction false} NothingIsLost(
    cmds: seq<Command>, out: seq<Option<Refusal>>, before: Refs, g: Grounds, at: nat, n: nat, name: string)
    requires |out| == |cmds| && n <= |cmds| && name in before
    ensures Accounted(name, before, Updated(cmds, out, before, n), DroppedBy(cmds, out, before, g, at, n), g)
  {
    hide FastForward;
    if n > 0 {
      NothingIsLost(cmds, out, before, g, at, n - 1, name);
      var c := cmds[n - 1];
      if c.name == name && Applies(c, out[n - 1], before) && Drops(c, g) {
        var all := DroppedBy(cmds, out, before, g, at, n);
        assert all[|all| - 1] == World.Dropped(before[name], name, at);
      }
    }
  }

  /** Nor does the cap take it: one push drops less than is kept. */
  lemma NothingIsLostToTheCap(
    cmds: seq<Command>, out: seq<Option<Refusal>>, before: Refs, g: Grounds, at: nat, was: seq<World.Dropped>, name: string)
    requires |out| == |cmds| <= MAX_COMMANDS && name in before
    ensures Accounted(name, before, Updated(cmds, out, before, |cmds|),
                      Capped(was + DroppedBy(cmds, out, before, g, at, |cmds|)), g)
  {
    hide FastForward, Updated;
    var new_ := DroppedBy(cmds, out, before, g, at, |cmds|);
    NothingIsLost(cmds, out, before, g, at, |cmds|, name);
    forall d | d in new_ ensures d in Capped(was + new_) {
      NewestSurvive(was, new_, d);
    }
  }

  lemma NewestSurvive(was: seq<World.Dropped>, new_: seq<World.Dropped>, d: World.Dropped)
    requires d in new_ && |new_| <= MAX_DROPPED
    ensures d in Capped(was + new_)
  {
    var i :| 0 <= i < |new_| && new_[i] == d;
    var all := was + new_;
    assert all[|was| + i] == d;
    if |all| > MAX_DROPPED {
      assert Capped(all)[|was| + i - (|all| - MAX_DROPPED)] == d;
    }
  }

  predicate DistinctNames(cmds: seq<Command>) {
    forall i, j :: 0 <= i < j < |cmds| ==> cmds[i].name != cmds[j].name
  }

  /** Where no name comes twice, an accepted command's ref ends as the command asks, and every
      other ref as it was. */
  lemma {:induction false} EffectIsExact(
    cmds: seq<Command>, refs: Refs, g: Grounds, out: seq<Option<Refusal>>, n: nat, name: string)
    requires Judged(cmds, refs, g, out) && n <= |cmds| && DistinctNames(cmds)
    ensures forall i :: 0 <= i < n && cmds[i].name == name && out[i].None? ==>
                          Current(Updated(cmds, out, refs, n), name) == cmds[i].now
    ensures (forall i :: 0 <= i < n && cmds[i].name == name ==> out[i].Some?) ==>
              Current(Updated(cmds, out, refs, n), name) == Current(refs, name)
  {
    hide Accepted, FastForward;
    if n > 0 {
      EffectIsExact(cmds, refs, g, out, n - 1, name);
      AcceptedPasses(cmds, refs, g, n - 1);
    }
  }

  // --- directories and files, after a push ----------------------------------------------

  /** Where a ref comes from: an accepted command set it, or no command touched it. */
  lemma {:induction false} WhereFrom(cmds: seq<Command>, out: seq<Option<Refusal>>, before: Refs, n: nat, k: string)
    requires |out| == |cmds| && n <= |cmds| && k in Updated(cmds, out, before, n)
    ensures || (exists i :: 0 <= i < n && cmds[i].name == k && cmds[i].now.Some? && Applies(cmds[i], out[i], before))
            || (k in before && forall i :: 0 <= i < n && cmds[i].name == k ==> !Applies(cmds[i], out[i], before))
  {
    if n > 0 {
      var c := cmds[n - 1];
      if c.name == k && Applies(c, out[n - 1], before) {
        assert c.now.Some?;
      } else {
        WhereFrom(cmds, out, before, n - 1, k);
      }
    }
  }

  /** A ref that no update touched is still there when all that passed is made. */
  lemma {:induction false} UntouchedStays(cmds: seq<Command>, refs: Refs, g: Grounds, out: seq<Option<Refusal>>, n: nat, k: string)
    requires Judged(cmds, refs, g, out) && n <= |cmds| && k in refs
    requires forall i :: 0 <= i < n && cmds[i].name == k ==> !Applies(cmds[i], out[i], refs)
    ensures k in After(cmds, Checks(cmds, refs, g), refs, n)
  {
    hide FastForward, Clashes;
    if n > 0 {
      UntouchedStays(cmds, refs, g, out, n - 1, k);
      var c := cmds[n - 1];
      if c.name == k && c.now.None? {
        assert Check(c, Current(refs, k), g) != None;
      }
    }
  }

  /** The names a push leaves that its judgement did not look at. */
  ghost function Overlooked(cmds: seq<Command>, refs: Refs, g: Grounds, out: seq<Option<Refusal>>): set<string>
    requires |out| == |cmds|
  {
    Updated(cmds, out, refs, |cmds|).Keys - After(cmds, Checks(cmds, refs, g), refs, |cmds|).Keys
  }

  /** The last command on a name that passes by itself. */
  function LastPassing(cmds: seq<Command>, out: seq<Option<Refusal>>, k: string, n: nat): (r: Option<nat>)
    requires |out| == |cmds| && n <= |cmds|
    ensures r.Some? ==> r.value < n && cmds[r.value].name == k && out[r.value].None?
    ensures forall i :: (if r.Some? then r.value + 1 else 0) <= i < n && cmds[i].name == k ==> out[i].Some?
  {
    if n == 0 then None
    else if cmds[n - 1].name == k && out[n - 1].None? then Some(n - 1)
    else LastPassing(cmds, out, k, n - 1)
  }

  /** A command creating the ref passes by itself. */
  predicate IsCreated(cmds: seq<Command>, refs: Refs, g: Grounds, k: string) {
    exists i :: 0 <= i < |cmds| && cmds[i].name == k && cmds[i].was.None? && cmds[i].now.Some?
                && Check(cmds[i], Current(refs, k), g) == None
  }

  /** Whether a push will leave a name unlooked at, told from the push, the refs and what it is
      judged by: the ref is new, it is created and clashes with nothing left, and the last word on
      it is a deletion. */
  predicate Forgotten(cmds: seq<Command>, refs: Refs, g: Grounds, k: string) {
    var all := Checks(cmds, refs, g);
    var last := LastPassing(cmds, all, k, |cmds|);
    && k !in refs && IsCreated(cmds, refs, g, k)
    && (forall n :: n in After(cmds, all, refs, |cmds|) ==> !Clashes(k, n))
    && last.Some? && cmds[last.value].now.None?
  }

  lemma {:induction false} AfterIsTheLast(cmds: seq<Command>, out: seq<Option<Refusal>>, refs: Refs, n: nat, k: string)
    requires |out| == |cmds| && n <= |cmds|
    ensures k in After(cmds, out, refs, n) <==>
            var last := LastPassing(cmds, out, k, n); if last.Some? then cmds[last.value].now.Some? else k in refs
  {
    if n > 0 {
      AfterIsTheLast(cmds, out, refs, n - 1, k);
    }
  }

  /** An accepted update of a ref that is there, with a deletion as the last word on it, leaves none. */
  lemma {:induction false} DeletedIsGone(cmds: seq<Command>, refs: Refs, g: Grounds, out: seq<Option<Refusal>>, n: nat, k: string)
    requires Judged(cmds, refs, g, out) && n <= |cmds| && k in refs
    requires var last := LastPassing(cmds, Checks(cmds, refs, g), k, n); last.Some? && cmds[last.value].now.None?
    ensures k !in Updated(cmds, out, refs, n)
  {
    hide FastForward, Clashes, After;
    if n > 0 {
      var c := cmds[n - 1];
      if c.name == k && Check(c, Current(refs, k), g) == None {
        assert Accepted(cmds, refs, g, n - 1);
      } else {
        DeletedIsGone(cmds, refs, g, out, n - 1, k);
        if c.name == k {
          AcceptedPasses(cmds, refs, g, n - 1);
        }
      }
    }
  }

  /** A new ref that an accepted command creates is left: no deletion of it is made. */
  lemma {:induction false} CreatedIsLeft(cmds: seq<Command>, refs: Refs, g: Grounds, out: seq<Option<Refusal>>, n: nat, i: nat)
    requires Judged(cmds, refs, g, out) && i < n <= |cmds| && cmds[i].name !in refs
    requires cmds[i].was.None? && cmds[i].now.Some? && out[i].None?
    ensures cmds[i].name in Updated(cmds, out, refs, n)
  {
    hide FastForward, Clashes, After;
    var k := cmds[i].name;
    if i < n - 1 {
      CreatedIsLeft(cmds, refs, g, out, n - 1, i);
      var c := cmds[n - 1];
      if c.name == k && Applies(c, out[n - 1], refs) {
        AcceptedPasses(cmds, refs, g, n - 1);
        assert c.now.Some?;
      }
    }
  }

  lemma CreationStands(cmds: seq<Command>, refs: Refs, g: Grounds, out: seq<Option<Refusal>>, k: string) returns (i: nat)
    requires Judged(cmds, refs, g, out) && Forgotten(cmds, refs, g, k)
    ensures i < |cmds| && cmds[i].name == k && cmds[i].was.None? && cmds[i].now.Some? && out[i].None?
  {
    hide Check, Clashes, After, LastPassing, Checks;
    i :| 0 <= i < |cmds| && cmds[i].name == k && cmds[i].was.None? && cmds[i].now.Some?
         && Check(cmds[i], Current(refs, k), g) == None;
    assert Accepted(cmds, refs, g, i);
  }

  /** The names overlooked are exactly those. */
  lemma OverlookedIsForgotten(cmds: seq<Command>, refs: Refs, g: Grounds, out: seq<Option<Refusal>>, k: string)
    requires Judged(cmds, refs, g, out)
    ensures k in Overlooked(cmds, refs, g, out) <==> Forgotten(cmds, refs, g, k)
  {
    var all := Checks(cmds, refs, g);
    AfterIsTheLast(cmds, all, refs, |cmds|, k);
    if k in Overlooked(cmds, refs, g, out) {
      hide Check, Clashes, Updated, After;
      WhereFrom(cmds, out, refs, |cmds|, k);
      if i :| 0 <= i < |cmds| && cmds[i].name == k && cmds[i].now.Some? && Applies(cmds[i], out[i], refs) {
        assert Accepted(cmds, refs, g, i) && all[i] == None;
        if k in refs {
          DeletedIsGone(cmds, refs, g, out, |cmds|, k);
        }
      } else {
        UntouchedStays(cmds, refs, g, out, |cmds|, k);
      }
    }
    if Forgotten(cmds, refs, g, k) {
      hide Check, Clashes, Updated, After, Checks;
      var i := CreationStands(cmds, refs, g, out, k);
      CreatedIsLeft(cmds, refs, g, out, |cmds|, i);
    }
  }

  /** A clash left by a push is one between two names overlooked. */
  lemma ClashIsOverlooked(cmds: seq<Command>, refs: Refs, g: Grounds, out: seq<Option<Refusal>>, a: string, b: string)
    requires Judged(cmds, refs, g, out) && ClashFree(refs)
    requires a in Updated(cmds, out, refs, |cmds|) && b in Updated(cmds, out, refs, |cmds|) && Clashes(a, b)
    ensures a in Overlooked(cmds, refs, g, out) && b in Overlooked(cmds, refs, g, out)
  {
    hide Updated, After, Check, Clashes;
    var n := |cmds|;
    WhereFrom(cmds, out, refs, n, a);
    WhereFrom(cmds, out, refs, n, b);
    ClashesBack(a, b);
    if forall i :: 0 <= i < n && cmds[i].name == a ==> !Applies(cmds[i], out[i], refs) {
      if a in refs {
        UntouchedStays(cmds, refs, g, out, n, a);
      }
    }
    if forall i :: 0 <= i < n && cmds[i].name == b ==> !Applies(cmds[i], out[i], refs) {
      if b in refs {
        UntouchedStays(cmds, refs, g, out, n, b);
      }
    }
  }

  lemma ClashesBack(a: string, b: string)
    ensures Clashes(a, b) == Clashes(b, a)
  {
  }

  /** Exactly when a push to refs that git can store leaves refs that git can store: no two of
      the names it will forget clash. */
  lemma StaysClashFreeIff(cmds: seq<Command>, refs: Refs, g: Grounds, out: seq<Option<Refusal>>)
    requires Judged(cmds, refs, g, out) && ClashFree(refs)
    ensures ClashFree(Updated(cmds, out, refs, |cmds|)) <==>
            forall a, b :: Forgotten(cmds, refs, g, a) && Forgotten(cmds, refs, g, b) ==> !Clashes(a, b)
  {
    hide Updated, After, Clashes, Forgotten;
    var after := Updated(cmds, out, refs, |cmds|);
    forall a, b | a in after && b in after && Clashes(a, b)
      ensures Forgotten(cmds, refs, g, a) && Forgotten(cmds, refs, g, b)
    {
      ClashIsOverlooked(cmds, refs, g, out, a, b);
      OverlookedIsForgotten(cmds, refs, g, out, a);
      OverlookedIsForgotten(cmds, refs, g, out, b);
    }
    forall a | Forgotten(cmds, refs, g, a) ensures a in after {
      OverlookedIsForgotten(cmds, refs, g, out, a);
    }
  }

  /** A name is forgotten only if one command creates it and another deletes it. */
  lemma ForgottenComesTwice(cmds: seq<Command>, refs: Refs, g: Grounds, k: string)
    requires Forgotten(cmds, refs, g, k)
    ensures exists i, j :: 0 <= i < |cmds| && 0 <= j < |cmds| && cmds[i].name == cmds[j].name == k
                           && cmds[i].now.Some? && cmds[j].now.None?
  {
    hide Check, Clashes, After, Checks;
  }

  /** So a push in which no name comes twice, as git sends them, never leaves a clash. */
  lemma DistinctNamesStayClashFree(cmds: seq<Command>, refs: Refs, g: Grounds, out: seq<Option<Refusal>>)
    requires Judged(cmds, refs, g, out) && ClashFree(refs) && DistinctNames(cmds)
    ensures ClashFree(Updated(cmds, out, refs, |cmds|))
  {
    hide Updated, After, Clashes, Accepted, Forgotten;
    forall a | Forgotten(cmds, refs, g, a) ensures false {
      ForgottenComesTwice(cmds, refs, g, a);
    }
    StaysClashFreeIff(cmds, refs, g, out);
  }

  // --- a push that leaves a clash -------------------------------------------------------

  function Creates(name: string, o: Oid): Command {
    Command(name, None, Some(o))
  }

  /** The deletion of a ref that is not there any more. */
  function DeletesGone(name: string, o: Oid): Command {
    Command(name, Some(o), None)
  }

  function Twice(a: string, b: string, o: Oid): seq<Command> {
    [Creates(a, o), DeletesGone(a, o), Creates(b, o), DeletesGone(b, o)]
  }

  /** Two refs that clash, each created and in the same push deleted as if it were an old one:
      all four commands are accepted, and both refs are left. */
  lemma ClashSlipsIn(g: Grounds, a: string, b: string, o: Oid, refs: Refs, out: seq<Option<Refusal>>)
    requires Clashes(a, b) && ValidRefname(a) && ValidRefname(b) && g.kind(o) == Some(Commit)
    requires refs == map[] && Judged(Twice(a, b, o), refs, g, out)
    ensures ClashFree(refs) && forall i :: 0 <= i < 4 ==> out[i] == None
    ensures !ClashFree(Updated(Twice(a, b, o), out, refs, 4))
  {
    var cmds := Twice(a, b, o);
    var all := Checks(cmds, refs, g);
    assert forall i :: 0 <= i < 4 ==> Check(cmds[i], Current(refs, cmds[i].name), g) == None;
    assert After(cmds, all, refs, 4) == refs by {
      hide Check, Clashes;
      assert all[0].None? && all[1].None? && all[2].None? && all[3].None?;
      assert cmds[0] == Creates(a, o) && cmds[1] == DeletesGone(a, o) && cmds[2] == Creates(b, o) && cmds[3] == DeletesGone(b, o);
      assert After(cmds, all, refs, 0) == refs;
      var r1, r3 := After(cmds, all, refs, 1), After(cmds, all, refs, 3);
      assert r1 == refs[a := o];
      assert After(cmds, all, refs, 2) == refs;
      assert r3 == refs[b := o];
    }
    assert forall i :: 0 <= i < 4 ==> Accepted(cmds, refs, g, i);
    assert a in Updated(cmds, out, refs, 4) && b in Updated(cmds, out, refs, 4) by {
      hide Check, Accepted, Checks, After;
      assert a != b by {
        assert |a| == |b| ==> |a + "/"| > |b|;
      }
      assert a in Updated(cmds, out, refs, 1);
      assert a in Updated(cmds, out, refs, 2);
      assert b in Updated(cmds, out, refs, 3);
    }
  }

  /** For one, `refs/tags/x` and `refs/tags/x/y`. */
  lemma TagsClash(g: Grounds, refs: Refs, out: seq<Option<Refusal>>)
    requires g.kind(1) == Some(Commit)
    requires refs == map[] && Judged(Twice("refs/tags/x", "refs/tags/x/y", 1), refs, g, out)
    ensures ClashFree(refs) && !ClashFree(Updated(Twice("refs/tags/x", "refs/tags/x/y", 1), out, refs, 4))
  {
    hide Judged, Updated, Twice, ValidRefname;
    TagIsValid('x');
    TagBelowIsValid('x', 'y');
    assert "refs/tags/x" == "refs/tags/" + ['x'] && "refs/tags/x/y" == "refs/tags/" + ['x', '/', 'y'];
    assert "refs/tags/x/y"[..12] == "refs/tags/x" + "/";
    ClashSlipsIn(g, "refs/tags/x", "refs/tags/x/y", 1, refs, out);
  }
}
