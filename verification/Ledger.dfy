/** What a run has written: refs, dropped values and records of retired packs, told from the writes
    alone. */
module Ledger {
  import opened Common
  import opened Git
  import opened ObjectIndex
  import opened World
  import opened Runs

  // --- refs -----------------------------------------------------------------------------

  /** The refs last pushed, and those restored since. */
  function RefsTold(acts: seq<Action>): map<string, Oid>
    decreases |acts|
  {
    if acts == [] then map[]
    else
      var before := acts[..|acts| - 1];
      match acts[|acts| - 1]
      case Push(_, refs, _) => refs
      case Restore(name, oid) => RefsTold(before)[name := oid]
      case _ => RefsTold(before)
  }

  lemma NextAct(content: Contents, s: seq<World>, acts: seq<Action>, i: nat)
    requires Run(content, s, acts) && 0 < i < |s|
    ensures acts[..i][..i - 1] == acts[..i - 1] && acts[..i][i - 1] == acts[i - 1]
    ensures Enabled(content, s[i - 1], acts[i - 1]) && s[i] == Do(content, s[i - 1], acts[i - 1])
  {
    hide Enabled, Do;
    assert Enabled(content, s[i - 1], acts[i - 1]) && s[i - 1 + 1] == Do(content, s[i - 1], acts[i - 1]);
  }

  /** No collection, merge, prune or sweep ever touches a ref. */
  lemma {:induction false} RefsAreTold(content: Contents, s: seq<World>, acts: seq<Action>, i: nat)
    requires Run(content, s, acts) && s[0] == START && i < |s|
    ensures s[i].m.refs == RefsTold(acts[..i])
  {
    if i > 0 {
      RefsAreTold(content, s, acts, i - 1);
      NextAct(content, s, acts, i);
      hide Run, Enabled;
    }
  }

  // --- dropped values -------------------------------------------------------------------

  /** A value is listed as dropped: the last push listed it, and no cutoff since has passed it. */
  predicate IsDropped(acts: seq<Action>, d: Dropped)
    decreases |acts|
  {
    acts != [] &&
    match acts[|acts| - 1]
    case Push(_, _, dropped) => d in dropped
    case Prune(cutoff) => d.at > cutoff && IsDropped(acts[..|acts| - 1], d)
    case Collect(plan, _) => d.at > plan.cutoff && IsDropped(acts[..|acts| - 1], d)
    case _ => IsDropped(acts[..|acts| - 1], d)
  }

  lemma {:induction false} DroppedAreTold(content: Contents, s: seq<World>, acts: seq<Action>, i: nat, d: Dropped)
    requires Run(content, s, acts) && s[0] == START && i < |s|
    ensures d in s[i].m.dropped <==> IsDropped(acts[..i], d)
  {
    if i > 0 {
      DroppedAreTold(content, s, acts, i - 1, d);
      NextAct(content, s, acts, i);
      hide Run, Enabled, Kept;
    }
  }

  // --- records of retired packs ---------------------------------------------------------

  /** When a write that replaces packs was made. */
  function TimeOf(a: Action): Option<nat> {
    match a
    case Collect(_, at) => Some(at)
    case Merge(_, _, _, at) => Some(at)
    case _ => None
  }

  /** The packs a write replaces. */
  function Gone(a: Action, w: World): seq<PackMeta> {
    match a
    case Collect(plan, _) => plan.sources
    case Merge(from, count, _, _) => if from + count <= |w.m.packs| then w.m.packs[from..from + count] else []
    case _ => []
  }

  predicate Holds(packs: seq<PackMeta>, id: PackId) {
    exists p :: p in packs && p.id == id
  }

  /** The write replaces the pack, at that time. */
  predicate Replaces(a: Action, w: World, x: Retired) {
    TimeOf(a) == Some(x.at) && Holds(Gone(a, w), x.id)
  }

  /** A record is there from the write that replaced its pack until a sweep drops it. */
  ghost predicate IsRecorded(s: seq<World>, acts: seq<Action>, i: nat, x: Retired)
    requires i <= |acts| && i < |s|
  {
    exists k :: 0 <= k < i && RecordedAt(s, acts, i, k, x)
  }

  predicate RecordedAt(s: seq<World>, acts: seq<Action>, i: nat, k: nat, x: Retired)
    requires k < i <= |acts| && i < |s|
  {
    Replaces(acts[k], s[k], x) && forall l :: k < l < i ==> !Forgets(acts[l], x.id)
  }

  lemma RecordedNext(s: seq<World>, acts: seq<Action>, i: nat, x: Retired)
    requires 0 < i <= |acts| && i < |s|
    ensures IsRecorded(s, acts, i, x)
       <==> Replaces(acts[i - 1], s[i - 1], x) || (IsRecorded(s, acts, i - 1, x) && !Forgets(acts[i - 1], x.id))
  {
    hide Replaces, Forgets;
    if Replaces(acts[i - 1], s[i - 1], x) {
      assert RecordedAt(s, acts, i, i - 1, x);
    } else if IsRecorded(s, acts, i - 1, x) && !Forgets(acts[i - 1], x.id) {
      var k :| 0 <= k < i - 1 && RecordedAt(s, acts, i - 1, k, x);
      assert RecordedAt(s, acts, i, k, x);
    }
    if IsRecorded(s, acts, i, x) && !Replaces(acts[i - 1], s[i - 1], x) {
      var k :| 0 <= k < i && RecordedAt(s, acts, i, k, x);
      assert RecordedAt(s, acts, i - 1, k, x);
    }
  }

  lemma RetiredIs(packs: seq<PackMeta>, at: nat, x: Retired)
    ensures x in RetireAll(packs, at) <==> x.at == at && Holds(packs, x.id)
  {
    if Holds(packs, x.id) && x.at == at {
      var k :| 0 <= k < |packs| && packs[k].id == x.id;
      assert RetireAll(packs, at)[k] == x;
    }
    if x in RetireAll(packs, at) {
      var k :| 0 <= k < |packs| && RetireAll(packs, at)[k] == x;
      assert packs[k] in packs;
    }
  }

  lemma RecordStep(content: Contents, w: World, a: Action, x: Retired)
    requires Enabled(content, w, a)
    ensures x in Do(content, w, a).m.retired <==> Replaces(a, w, x) || (x in w.m.retired && !Forgets(a, x.id))
  {
    hide Holds, RetireAll, Without, Kept, CanCollect, StandsAlone, Addressed, Connected, Closure, Lists, Fold, Held;
    RetiredIs(Gone(a, w), if TimeOf(a).Some? then TimeOf(a).value else 0, x);
    NothingGone(x);
  }

  lemma NothingGone(x: Retired)
    ensures !Holds([], x.id)
  {
  }

  /** And a record tells when. */
  lemma {:induction false} RecordsAreTold(content: Contents, s: seq<World>, acts: seq<Action>, i: nat, x: Retired)
    requires Run(content, s, acts) && s[0] == START && i < |s|
    ensures x in s[i].m.retired <==> IsRecorded(s, acts, i, x)
  {
    hide Enabled, Do, Replaces, IsRecorded, Forgets;
    if i == 0 {
      NoneRecorded(s, acts, x);
    } else {
      RecordsAreTold(content, s, acts, i - 1, x);
      NextAct(content, s, acts, i);
      RecordStep(content, s[i - 1], acts[i - 1], x);
      RecordedNext(s, acts, i, x);
    }
  }

  lemma NoneRecorded(s: seq<World>, acts: seq<Action>, x: Retired)
    requires s != []
    ensures !IsRecorded(s, acts, 0, x)
  {
  }
}
