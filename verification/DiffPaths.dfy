/** depot/src/api.rs, `diff_paths`: the changed paths between two trees, found with a stack
    that skips equal entries, against what a change at a path means. */
module DiffPaths {
  import opened Common
  import opened Git

  const MODE_TREE: nat := 0x4000
  const MAX_CHANGES := 500

  datatype TreeEntry = TreeEntry(name: string, mode: nat, oid: Oid)

  /** Stored trees by id: None for one that cannot be read or parsed. An id that is not
      stored reads as an empty tree. */
  type Trees = map<Oid, Option<seq<TreeEntry>>>

  datatype Change = Added | Deleted | Modified

  type Path = seq<string>

  function EntriesOf(tr: Trees, t: Option<Oid>): seq<TreeEntry> {
    if t.Some? && t.value in tr && tr[t.value].Some? then tr[t.value].value else []
  }

  /** `find`: the first entry of that name. */
  function Find(es: seq<TreeEntry>, n: string): (r: Option<TreeEntry>)
    ensures r.Some? <==> exists e :: e in es && e.name == n
    ensures r.Some? ==> r.value in es && r.value.name == n
  {
    if es == [] then None
    else
      assert es == [es[0]] + es[1..];
      if es[0].name == n then Some(es[0]) else Find(es[1..], n)
  }

  lemma {:induction false} FindIsFirst(es: seq<TreeEntry>, n: string, i: nat)
    requires i < |es| && es[i].name == n && forall j :: 0 <= j < i ==> es[j].name != n
    ensures Find(es, n) == Some(es[i])
  {
    if i > 0 {
      FindIsFirst(es[1..], n, i - 1);
    }
  }

  predicate IsTree(e: Option<TreeEntry>) {
    e.Some? && e.value.mode == MODE_TREE
  }

  function Below(e: Option<TreeEntry>): Option<Oid> {
    if IsTree(e) then Some(e.value.oid) else None
  }

  // --- what a change is -----------------------------------------------------------------

  /** The entry a path leads to, through trees only. */
  ghost function At(tr: Trees, t: Option<Oid>, p: Path): Option<TreeEntry>
    requires p != []
    decreases |p|
  {
    var e := Find(EntriesOf(tr, t), p[0]);
    if |p| == 1 then e else if IsTree(e) then At(tr, Some(e.value.oid), p[1..]) else None
  }

  /** What to report of the entries two trees have at one path, if anything. A directory that
      took a file's place, or the other way round, is one modification. */
  function KindOf(a: Option<TreeEntry>, b: Option<TreeEntry>): Option<Change> {
    match (a, b)
    case (Some(e), Some(f)) => if (e.mode == f.mode && e.oid == f.oid) || (IsTree(a) && IsTree(b)) then None else Some(Modified)
    case (None, Some(f)) => if IsTree(b) then None else Some(Added)
    case (Some(e), None) => if IsTree(a) then None else Some(Deleted)
    case (None, None) => None
  }

  predicate DirOrNothing(e: Option<TreeEntry>) {
    e.None? || IsTree(e)
  }

  /** `p` is a change of kind `k` from tree `x` to tree `y`: the two differ there, and on the
      way down neither has a file where the other goes on. */
  ghost predicate Changed(tr: Trees, x: Option<Oid>, y: Option<Oid>, p: Path, k: Change) {
    && p != []
    && KindOf(At(tr, x, p), At(tr, y, p)) == Some(k)
    && forall i :: 0 < i < |p| ==> DirOrNothing(At(tr, x, p[..i])) && DirOrNothing(At(tr, y, p[..i]))
  }

  lemma ChangedHere(tr: Trees, x: Option<Oid>, y: Option<Oid>, n: string, k: Change)
    ensures Changed(tr, x, y, [n], k) <==> KindOf(Find(EntriesOf(tr, x), n), Find(EntriesOf(tr, y), n)) == Some(k)
  {
  }

  lemma AtBelow(tr: Trees, t: Option<Oid>, p: Path)
    requires |p| > 1
    ensures At(tr, t, p) == At(tr, Below(Find(EntriesOf(tr, t), p[0])), p[1..])
  {
    var e := Find(EntriesOf(tr, t), p[0]);
    if !IsTree(e) {
      assert EntriesOf(tr, None) == [];
    }
  }

  lemma ChangedBelow(tr: Trees, x: Option<Oid>, y: Option<Oid>, p: Path, k: Change)
    requires |p| > 1
    ensures var a, b := Find(EntriesOf(tr, x), p[0]), Find(EntriesOf(tr, y), p[0]);
            Changed(tr, x, y, p, k) <==> DirOrNothing(a) && DirOrNothing(b) && Changed(tr, Below(a), Below(b), p[1..], k)
  {
    var a, b := Find(EntriesOf(tr, x), p[0]), Find(EntriesOf(tr, y), p[0]);
    AtBelow(tr, x, p);
    AtBelow(tr, y, p);
    var q := p[1..];
    forall i | 1 < i < |p|
      ensures At(tr, x, p[..i]) == At(tr, Below(a), q[..i - 1]) && At(tr, y, p[..i]) == At(tr, Below(b), q[..i - 1])
    {
      AtBelow(tr, x, p[..i]);
      AtBelow(tr, y, p[..i]);
      assert p[..i][1..] == q[..i - 1];
    }
    assert p[..1] == [p[0]];
    if Changed(tr, x, y, p, k) {
      assert DirOrNothing(At(tr, x, p[..1])) && DirOrNothing(At(tr, y, p[..1]));
      forall i | 0 < i < |q| ensures DirOrNothing(At(tr, Below(a), q[..i])) && DirOrNothing(At(tr, Below(b), q[..i])) {
        assert DirOrNothing(At(tr, x, p[..i + 1])) && DirOrNothing(At(tr, y, p[..i + 1]));
      }
    }
    if DirOrNothing(a) && DirOrNothing(b) && Changed(tr, Below(a), Below(b), q, k) {
      forall i | 0 < i < |p| ensures DirOrNothing(At(tr, x, p[..i])) && DirOrNothing(At(tr, y, p[..i])) {
        if i > 1 {
          assert DirOrNothing(At(tr, Below(a), q[..i - 1])) && DirOrNothing(At(tr, Below(b), q[..i - 1]));
        }
      }
    }
  }

  /** A tree has no change from itself, which is what lets equal entries be skipped. */
  lemma {:induction false} NoChangeFromItself(tr: Trees, t: Option<Oid>, p: Path, k: Change)
    ensures !Changed(tr, t, t, p, k)
    decreases |p|
  {
    if |p| == 1 {
      assert p == [p[0]];
      ChangedHere(tr, t, t, p[0], k);
    } else if |p| > 1 {
      ChangedBelow(tr, t, t, p, k);
      NoChangeFromItself(tr, Below(Find(EntriesOf(tr, t), p[0])), p[1..], k);
    }
  }

  /** The file at a path, if there is one. */
  ghost function FileAt(tr: Trees, t: Option<Oid>, p: Path): Option<TreeEntry>
    requires p != []
  {
    if IsTree(At(tr, t, p)) then None else At(tr, t, p)
  }

  /** Neither tree has a file where the path goes on. */
  ghost predicate Clear(tr: Trees, x: Option<Oid>, y: Option<Oid>, p: Path) {
    forall i :: 0 < i < |p| ==> FileAt(tr, x, p[..i]).None? && FileAt(tr, y, p[..i]).None?
  }

  /** What each kind says: a file where there was nothing, nothing where there was a file, and
      another entry where there was one, unless both are directories. */
  lemma KindsMean(tr: Trees, x: Option<Oid>, y: Option<Oid>, p: Path)
    requires p != [] && Clear(tr, x, y, p)
    ensures Changed(tr, x, y, p, Added) <==> At(tr, x, p).None? && FileAt(tr, y, p).Some?
    ensures Changed(tr, x, y, p, Deleted) <==> FileAt(tr, x, p).Some? && At(tr, y, p).None?
    ensures Changed(tr, x, y, p, Modified)
       <==> At(tr, x, p).Some? && At(tr, y, p).Some? && At(tr, x, p) != At(tr, y, p) && (FileAt(tr, x, p).Some? || FileAt(tr, y, p).Some?)
  {
    hide At;
    SameName(tr, x, p);
    SameName(tr, y, p);
    forall i | 0 < i < |p| ensures DirOrNothing(At(tr, x, p[..i])) && DirOrNothing(At(tr, y, p[..i])) {
      assert FileAt(tr, x, p[..i]).None? && FileAt(tr, y, p[..i]).None?;
    }
  }

  lemma {:induction false} SameName(tr: Trees, t: Option<Oid>, p: Path)
    requires p != []
    ensures At(tr, t, p).Some? ==> At(tr, t, p).value.name == p[|p| - 1]
    decreases |p|
  {
    var e := Find(EntriesOf(tr, t), p[0]);
    if |p| > 1 && IsTree(e) {
      SameName(tr, Some(e.value.oid), p[1..]);
    }
  }

  /** Wherever the files of two trees differ there is a change, at the path or above it. */
  lemma {:induction false} DifferenceIsAChange(tr: Trees, x: Option<Oid>, y: Option<Oid>, p: Path) returns (i: nat, k: Change)
    requires p != [] && FileAt(tr, x, p) != FileAt(tr, y, p)
    ensures 0 < i <= |p| && Changed(tr, x, y, p[..i], k)
    decreases |p|
  {
    var a, b := Find(EntriesOf(tr, x), p[0]), Find(EntriesOf(tr, y), p[0]);
    i := 1;
    assert p[..1] == [p[0]];
    if KindOf(a, b).Some? {
      k := KindOf(a, b).value;
      ChangedHere(tr, x, y, p[0], k);
    } else {
      assert |p| > 1;
      AtBelow(tr, x, p);
      AtBelow(tr, y, p);
      i, k := DifferenceIsAChange(tr, Below(a), Below(b), p[1..]);
      i := i + 1;
      ChangedBelow(tr, x, y, p[..i], k);
      assert p[..i][1..] == p[1..][..i - 1];
    }
  }

  // --- the two lists of names -----------------------------------------------------------

  /** The distinct names of two entry lists. */
  function Names(es: seq<TreeEntry>): (ns: seq<string>)
    ensures forall n :: n in ns <==> exists e :: e in es && e.name == n
    ensures NoRepeats(ns)
  {
    if es == [] then []
    else
      assert es == [es[0]] + es[1..];
      var rest := Names(es[1..]);
      if es[0].name in rest then rest else [es[0].name] + rest
  }

  predicate NoRepeats(ns: seq<string>) {
    ns == [] || (ns[0] !in ns[1..] && NoRepeats(ns[1..]))
  }

  /** What one name asks of the walk: nothing, a deeper look, or a line of output. */
  datatype Step = Skip | Descend(x: Option<Oid>, y: Option<Oid>) | Tell(kind: Change)

  function StepOf(a: Option<TreeEntry>, b: Option<TreeEntry>): Step {
    match (a, b)
    case (Some(e), Some(f)) =>
      if e.oid == f.oid && e.mode == f.mode then Skip
      else if e.mode == MODE_TREE && f.mode == MODE_TREE then Descend(Some(e.oid), Some(f.oid))
      else Tell(Modified)
    case (None, Some(f)) => if f.mode == MODE_TREE then Descend(None, Some(f.oid)) else Tell(Added)
    case (Some(e), None) => if e.mode == MODE_TREE then Descend(Some(e.oid), None) else Tell(Deleted)
    case (None, None) => Tell(Modified)
  }

  // --- the whole list, tree by tree -----------------------------------------------------

  datatype Report = Report(path: Path, kind: Change)

  function RankOf(rank: Oid -> nat, t: Option<Oid>): nat {
    if t.Some? then rank(t.value) + 1 else 0
  }

  /** Content addressing: an id is a hash over the ids below it, so no tree holds itself at
      any depth, and the trees can be ranked. */
  ghost predicate Ranked(tr: Trees, rank: Oid -> nat) {
    forall t, e :: t in tr && e in EntriesOf(tr, Some(t)) && e.mode == MODE_TREE ==> rank(e.oid) < rank(t)
  }

  lemma StepIsLower(tr: Trees, rank: Oid -> nat, x: Option<Oid>, y: Option<Oid>, n: string)
    requires Ranked(tr, rank)
    ensures var s := StepOf(Find(EntriesOf(tr, x), n), Find(EntriesOf(tr, y), n));
            s.Descend? ==> RankOf(rank, s.x) + RankOf(rank, s.y) < RankOf(rank, x) + RankOf(rank, y)
  {
    var a, b := Find(EntriesOf(tr, x), n), Find(EntriesOf(tr, y), n);
    if IsTree(a) {
      assert a.value in EntriesOf(tr, Some(x.value));
    }
    if IsTree(b) {
      assert b.value in EntriesOf(tr, Some(y.value));
    }
  }

  function NamesOf(tr: Trees, x: Option<Oid>, y: Option<Oid>): seq<string> {
    Names(EntriesOf(tr, x) + EntriesOf(tr, y))
  }

  /** Everything reported below a pair of trees found at `path`. */
  ghost function DiffList(tr: Trees, rank: Oid -> nat, path: Path, x: Option<Oid>, y: Option<Oid>): seq<Report>
    requires Ranked(tr, rank)
    decreases RankOf(rank, x) + RankOf(rank, y), 1, 0
  {
    Pieces(tr, rank, path, x, y, NamesOf(tr, x, y))
  }

  ghost function Pieces(tr: Trees, rank: Oid -> nat, path: Path, x: Option<Oid>, y: Option<Oid>, ns: seq<string>): seq<Report>
    requires Ranked(tr, rank)
    decreases RankOf(rank, x) + RankOf(rank, y), 0, |ns| + 1
  {
    if ns == [] then [] else Piece(tr, rank, path, x, y, ns[0]) + Pieces(tr, rank, path, x, y, ns[1..])
  }

  ghost function Piece(tr: Trees, rank: Oid -> nat, path: Path, x: Option<Oid>, y: Option<Oid>, n: string): seq<Report>
    requires Ranked(tr, rank)
    decreases RankOf(rank, x) + RankOf(rank, y), 0, 0
  {
    StepIsLower(tr, rank, x, y, n);
    match StepOf(Find(EntriesOf(tr, x), n), Find(EntriesOf(tr, y), n))
    case Skip => []
    case Descend(x', y') => DiffList(tr, rank, path + [n], x', y')
    case Tell(k) => [Report(path + [n], k)]
  }

  /** How many pairs of trees are looked at below a pair. */
  ghost function Work(tr: Trees, rank: Oid -> nat, x: Option<Oid>, y: Option<Oid>): nat
    requires Ranked(tr, rank)
    decreases RankOf(rank, x) + RankOf(rank, y), 1, 0
  {
    1 + PiecesWork(tr, rank, x, y, NamesOf(tr, x, y))
  }

  ghost function PiecesWork(tr: Trees, rank: Oid -> nat, x: Option<Oid>, y: Option<Oid>, ns: seq<string>): nat
    requires Ranked(tr, rank)
    decreases RankOf(rank, x) + RankOf(rank, y), 0, |ns| + 1
  {
    if ns == [] then 0
    else
      PieceWork(tr, rank, x, y, ns[0]) + PiecesWork(tr, rank, x, y, ns[1..])
  }

  ghost function PieceWork(tr: Trees, rank: Oid -> nat, x: Option<Oid>, y: Option<Oid>, n: string): nat
    requires Ranked(tr, rank)
    decreases RankOf(rank, x) + RankOf(rank, y), 0, 0
  {
    StepIsLower(tr, rank, x, y, n);
    var s := StepOf(Find(EntriesOf(tr, x), n), Find(EntriesOf(tr, y), n));
    if s.Descend? then Work(tr, rank, s.x, s.y) else 0
  }

  /** A report says that its path, taken from `path` on, is a change. */
  ghost predicate Says(tr: Trees, path: Path, x: Option<Oid>, y: Option<Oid>, r: Report) {
    path <= r.path && Changed(tr, x, y, r.path[|path|..], r.kind)
  }

  /** The list holds every change and nothing else. */
  lemma {:induction false} ListedIffChanged(tr: Trees, rank: Oid -> nat, path: Path, x: Option<Oid>, y: Option<Oid>, r: Report)
    requires Ranked(tr, rank)
    ensures r in DiffList(tr, rank, path, x, y) <==> Says(tr, path, x, y, r)
    decreases RankOf(rank, x) + RankOf(rank, y), 1, 0
  {
    hide Changed, Find, Names, Piece;
    var ns := NamesOf(tr, x, y);
    ListedInPieces(tr, rank, path, x, y, ns, r);
    if Says(tr, path, x, y, r) {
      ChangeHasAName(tr, x, y, r.path[|path|..], r.kind);
    }
  }

  lemma ChangeHasAName(tr: Trees, x: Option<Oid>, y: Option<Oid>, p: Path, k: Change)
    requires Changed(tr, x, y, p, k)
    ensures p != [] && p[0] in NamesOf(tr, x, y)
  {
    var ex, ey := EntriesOf(tr, x), EntriesOf(tr, y);
    if Find(ex, p[0]).Some? {
      assert Find(ex, p[0]).value in ex + ey;
    } else if Find(ey, p[0]).Some? {
      assert Find(ey, p[0]).value in ex + ey;
    }
  }

  lemma {:induction false} ListedInPieces(tr: Trees, rank: Oid -> nat, path: Path, x: Option<Oid>, y: Option<Oid>, ns: seq<string>, r: Report)
    requires Ranked(tr, rank)
    requires forall n :: n in ns ==> n in NamesOf(tr, x, y)
    ensures r in Pieces(tr, rank, path, x, y, ns) <==> Says(tr, path, x, y, r) && r.path != path && r.path[|path|] in ns
    decreases RankOf(rank, x) + RankOf(rank, y), 0, |ns| + 1
  {
    hide Changed, Find, Names, Piece;
    if ns != [] {
      ListedInPiece(tr, rank, path, x, y, ns[0], r);
      ListedInPieces(tr, rank, path, x, y, ns[1..], r);
    }
  }

  lemma NameIsFound(tr: Trees, x: Option<Oid>, y: Option<Oid>, n: string)
    requires n in NamesOf(tr, x, y)
    ensures Find(EntriesOf(tr, x), n).Some? || Find(EntriesOf(tr, y), n).Some?
  {
  }

  lemma {:induction false} ListedInPiece(tr: Trees, rank: Oid -> nat, path: Path, x: Option<Oid>, y: Option<Oid>, n: string, r: Report)
    requires Ranked(tr, rank)
    requires n in NamesOf(tr, x, y)
    ensures r in Piece(tr, rank, path, x, y, n) <==> Says(tr, path, x, y, r) && r.path != path && r.path[|path|] == n
    decreases RankOf(rank, x) + RankOf(rank, y), 0, 0
  {
    hide Changed, Find, Names, DiffList;
    NameIsFound(tr, x, y, n);
    StepIsLower(tr, rank, x, y, n);
    var s := StepOf(Find(EntriesOf(tr, x), n), Find(EntriesOf(tr, y), n));
    if s.Descend? {
      ListedIffChanged(tr, rank, path + [n], s.x, s.y, r);
    }
    if path < r.path && r.path[|path|] == n {
      StepSays(tr, x, y, r.path[|path|..], r.kind);
      if |r.path| > |path| + 1 {
        assert r.path[|path|..][1..] == r.path[|path + [n]|..];
        assert path + [n] <= r.path;
      } else {
        assert r.path == path + [n];
        assert r.path[|path|..] == [n];
        if s.Descend? && Says(tr, path + [n], s.x, s.y, r) {
          NotEmpty(tr, s.x, s.y, r.path[|path| + 1..], r.kind);
        }
      }
    }
  }

  lemma NotEmpty(tr: Trees, x: Option<Oid>, y: Option<Oid>, p: Path, k: Change)
    requires Changed(tr, x, y, p, k)
    ensures p != []
  {
  }

  /** What the step on a path's first name has to do with the path being a change. */
  lemma StepSays(tr: Trees, x: Option<Oid>, y: Option<Oid>, p: Path, k: Change)
    requires p != []
    requires Find(EntriesOf(tr, x), p[0]).Some? || Find(EntriesOf(tr, y), p[0]).Some?
    ensures var s := StepOf(Find(EntriesOf(tr, x), p[0]), Find(EntriesOf(tr, y), p[0]));
            Changed(tr, x, y, p, k)
            <==> if |p| == 1 then s == Tell(k) else s.Descend? && Changed(tr, s.x, s.y, p[1..], k)
  {
    hide Changed, Find;
    var a, b := Find(EntriesOf(tr, x), p[0]), Find(EntriesOf(tr, y), p[0]);
    if |p| == 1 {
      assert p == [p[0]];
      ChangedHere(tr, x, y, p[0], k);
    } else {
      ChangedBelow(tr, x, y, p, k);
      if StepOf(a, b) == Skip {
        NoChangeFromItself(tr, Below(a), p[1..], k);
      }
    }
  }

  // --- each path once -------------------------------------------------------------------

  /** No two reports have the same path. */
  predicate Apart(rs: seq<Report>) {
    forall i, j :: 0 <= i < j < |rs| ==> rs[i].path != rs[j].path
  }

  lemma {:induction false} ListedOnce(tr: Trees, rank: Oid -> nat, path: Path, x: Option<Oid>, y: Option<Oid>)
    requires Ranked(tr, rank)
    ensures Apart(DiffList(tr, rank, path, x, y))
    decreases RankOf(rank, x) + RankOf(rank, y), 1, 0
  {
    hide Find, Names;
    PiecesOnce(tr, rank, path, x, y, NamesOf(tr, x, y));
  }

  lemma {:induction false} PiecesOnce(tr: Trees, rank: Oid -> nat, path: Path, x: Option<Oid>, y: Option<Oid>, ns: seq<string>)
    requires Ranked(tr, rank)
    requires NoRepeats(ns) && forall n :: n in ns ==> n in NamesOf(tr, x, y)
    ensures Apart(Pieces(tr, rank, path, x, y, ns))
    decreases RankOf(rank, x) + RankOf(rank, y), 0, |ns|
  {
    hide Changed, Find, Names;
    if ns != [] {
      var n := ns[0];
      var here, rest := Piece(tr, rank, path, x, y, n), Pieces(tr, rank, path, x, y, ns[1..]);
      StepIsLower(tr, rank, x, y, n);
      var s := StepOf(Find(EntriesOf(tr, x), n), Find(EntriesOf(tr, y), n));
      if s.Descend? {
        ListedOnce(tr, rank, path + [n], s.x, s.y);
      }
      PiecesOnce(tr, rank, path, x, y, ns[1..]);
      forall r | r in here ensures path < r.path && r.path[|path|] == n {
        ListedInPiece(tr, rank, path, x, y, n, r);
      }
      forall r | r in rest ensures path < r.path && r.path[|path|] in ns[1..] {
        ListedInPieces(tr, rank, path, x, y, ns[1..], r);
      }
      ApartConcat(here, rest);
    }
  }

  lemma ApartConcat(a: seq<Report>, b: seq<Report>)
    requires Apart(a) && Apart(b)
    requires forall r, s :: r in a && s in b ==> r.path != s.path
    ensures Apart(a + b)
  {
  }

  lemma PartIsApart(part: seq<Report>, whole: seq<Report>)
    requires multiset(part) <= multiset(whole) && Apart(whole)
    ensures Apart(part)
  {
    forall i, j | 0 <= i < j < |part| ensures part[i].path != part[j].path {
      var r := part[i];
      assert r in multiset(whole) && part[j] in multiset(whole);
      if part[i].path == part[j].path {
        assert part[j] == r;
        CountAtLeastTwo(part, i, j);
        CountAtMostOne(whole, r);
      }
    }
  }

  lemma CountAtLeastTwo(s: seq<Report>, i: nat, j: nat)
    requires i < j < |s| && s[i] == s[j]
    ensures multiset(s)[s[i]] >= 2
  {
    assert s == s[..i] + [s[i]] + s[i + 1..j] + [s[j]] + s[j + 1..];
  }

  lemma {:induction false} CountAtMostOne(s: seq<Report>, r: Report)
    requires Apart(s)
    ensures multiset(s)[r] <= 1
  {
    if s != [] {
      assert s == [s[0]] + s[1..];
      CountAtMostOne(s[1..], r);
      if s[0] == r {
        assert r !in s[1..];
        assert multiset(s[1..])[r] == 0;
      }
    }
  }

  // --- the loop -------------------------------------------------------------------------

  datatype Frame = Frame(path: Path, x: Option<Oid>, y: Option<Oid>)

  ghost function Pending(tr: Trees, rank: Oid -> nat, stack: seq<Frame>): multiset<Report>
    requires Ranked(tr, rank)
  {
    if stack == [] then multiset{}
    else
      var f := stack[|stack| - 1];
      Pending(tr, rank, stack[..|stack| - 1]) + multiset(DiffList(tr, rank, f.path, f.x, f.y))
  }

  ghost function Left(tr: Trees, rank: Oid -> nat, stack: seq<Frame>): nat
    requires Ranked(tr, rank)
  {
    if stack == [] then 0
    else
      var f := stack[|stack| - 1];
      Left(tr, rank, stack[..|stack| - 1]) + Work(tr, rank, f.x, f.y)
  }

  lemma Pushed(tr: Trees, rank: Oid -> nat, stack: seq<Frame>, f: Frame)
    requires Ranked(tr, rank)
    ensures Pending(tr, rank, stack + [f]) == Pending(tr, rank, stack) + multiset(DiffList(tr, rank, f.path, f.x, f.y))
    ensures Left(tr, rank, stack + [f]) == Left(tr, rank, stack) + Work(tr, rank, f.x, f.y)
  {
    assert (stack + [f])[..|stack|] == stack;
  }

  predicate Unreadable(tr: Trees, t: Option<Oid>) {
    t.Some? && t.value in tr && tr[t.value].None?
  }

  /** One name of a pair of trees: nothing, a pair to look at later, or a report. */
  method LookAtName(tr: Trees, ghost rank: Oid -> nat, f: Frame, n: string, stack: seq<Frame>, out: seq<Report>)
    returns (stack': seq<Frame>, out': seq<Report>)
    requires Ranked(tr, rank)
    ensures multiset(out') + Pending(tr, rank, stack')
         == multiset(out) + Pending(tr, rank, stack) + multiset(Piece(tr, rank, f.path, f.x, f.y, n))
    ensures Left(tr, rank, stack') == Left(tr, rank, stack) + PieceWork(tr, rank, f.x, f.y, n)
  {
    hide Find, Names, Pending, Left, Ranked, DiffList, Work;
    stack', out' := stack, out;
    match StepOf(Find(EntriesOf(tr, f.x), n), Find(EntriesOf(tr, f.y), n))
    case Skip =>
    case Descend(x, y) =>
      Pushed(tr, rank, stack, Frame(f.path + [n], x, y));
      stack' := stack + [Frame(f.path + [n], x, y)];
    case Tell(k) =>
      out' := out + [Report(f.path + [n], k)];
  }

  /** The inner loop: the names of one pair of trees. */
  method LookAt(tr: Trees, ghost rank: Oid -> nat, f: Frame, stack: seq<Frame>, out: seq<Report>)
    returns (stack': seq<Frame>, out': seq<Report>)
    requires Ranked(tr, rank)
    ensures multiset(out') + Pending(tr, rank, stack')
         == multiset(out) + Pending(tr, rank, stack) + multiset(DiffList(tr, rank, f.path, f.x, f.y))
    ensures Left(tr, rank, stack') + 1 == Left(tr, rank, stack) + Work(tr, rank, f.x, f.y)
  {
    hide *;
    WorkUnfolds(tr, rank, f.path, f.x, f.y);
    var ns := Names(EntriesOf(tr, f.x) + EntriesOf(tr, f.y));
    stack', out' := stack, out;
    PiecesFrom(tr, rank, f.path, f.x, f.y, ns, 0);
    for i := 0 to |ns|
      invariant multiset(out') + Pending(tr, rank, stack') + multiset(Pieces(tr, rank, f.path, f.x, f.y, ns[i..]))
             == multiset(out) + Pending(tr, rank, stack) + multiset(Pieces(tr, rank, f.path, f.x, f.y, ns))
      invariant Left(tr, rank, stack') + PiecesWork(tr, rank, f.x, f.y, ns[i..])
             == Left(tr, rank, stack) + PiecesWork(tr, rank, f.x, f.y, ns)
    {
      PiecesFrom(tr, rank, f.path, f.x, f.y, ns, i);
      stack', out' := LookAtName(tr, rank, f, ns[i], stack', out');
    }
    PiecesFrom(tr, rank, f.path, f.x, f.y, ns, |ns|);
  }

  lemma PiecesFrom(tr: Trees, rank: Oid -> nat, path: Path, x: Option<Oid>, y: Option<Oid>, ns: seq<string>, i: nat)
    requires Ranked(tr, rank) && i <= |ns|
    ensures ns[0..] == ns
    ensures i == |ns| ==> multiset(Pieces(tr, rank, path, x, y, ns[i..])) == multiset{} && PiecesWork(tr, rank, x, y, ns[i..]) == 0
    ensures i < |ns| ==>
              multiset(Pieces(tr, rank, path, x, y, ns[i..]))
              == multiset(Piece(tr, rank, path, x, y, ns[i])) + multiset(Pieces(tr, rank, path, x, y, ns[i + 1..]))
    ensures i < |ns| ==>
              PiecesWork(tr, rank, x, y, ns[i..])
              == PieceWork(tr, rank, x, y, ns[i]) + PiecesWork(tr, rank, x, y, ns[i + 1..])
  {
    hide Piece, PieceWork, Ranked;
    if i < |ns| {
      assert ns[i..][1..] == ns[i + 1..];
    }
  }

  lemma WorkUnfolds(tr: Trees, rank: Oid -> nat, path: Path, x: Option<Oid>, y: Option<Oid>)
    requires Ranked(tr, rank)
    ensures DiffList(tr, rank, path, x, y) == Pieces(tr, rank, path, x, y, Names(EntriesOf(tr, x) + EntriesOf(tr, y)))
    ensures Work(tr, rank, x, y) == 1 + PiecesWork(tr, rank, x, y, Names(EntriesOf(tr, x) + EntriesOf(tr, y)))
  {
    hide Find, Names, Pieces, PiecesWork;
  }

  /** `diff_paths` between two trees. Whatever it reports is a change of that kind, and no path
      comes twice; below the bound nothing is missing. It fails only on a tree that cannot be
      read. `rank` is there for termination alone. */
  method DiffPaths(tr: Trees, ghost rank: Oid -> nat, ta: Oid, tb: Oid) returns (r: Result<seq<Report>, Oid>)
    requires Ranked(tr, rank)
    ensures r.Ok? ==> forall c :: c in r.value ==> Changed(tr, Some(ta), Some(tb), c.path, c.kind)
    ensures r.Ok? ==> Apart(r.value)
    ensures r.Ok? && |r.value| < MAX_CHANGES ==>
              forall p, k :: Changed(tr, Some(ta), Some(tb), p, k) ==> Report(p, k) in r.value
    ensures r.Err? ==> Unreadable(tr, Some(r.error))
  {
    hide Changed, Find, Names, Pieces, PiecesWork, Ranked, DiffList, Work;
    var out: seq<Report> := [];
    var stack := [Frame([], Some(ta), Some(tb))];
    ghost var all := DiffList(tr, rank, [], Some(ta), Some(tb));
    Pushed(tr, rank, [], stack[0]);
    assert [] + stack == stack;
    while stack != []
      invariant multiset(out) + Pending(tr, rank, stack) == multiset(all)
      decreases Left(tr, rank, stack)
    {
      var f := stack[|stack| - 1];
      ghost var whole := stack;
      stack := stack[..|stack| - 1];
      assert whole == stack + [f];
      Pushed(tr, rank, stack, f);
      if |out| >= MAX_CHANGES {
        assert multiset(out) <= multiset(all);
        break;
      }
      if Unreadable(tr, f.x) {
        return Err(f.x.value);
      }
      if Unreadable(tr, f.y) {
        return Err(f.y.value);
      }
      stack, out := LookAt(tr, rank, f, stack, out);
    }
    OutputIsDiff(tr, rank, ta, tb, out);
    return Ok(out);
  }

  lemma OutputIsDiff(tr: Trees, rank: Oid -> nat, ta: Oid, tb: Oid, out: seq<Report>)
    requires Ranked(tr, rank)
    requires multiset(out) <= multiset(DiffList(tr, rank, [], Some(ta), Some(tb)))
    ensures forall c :: c in out ==> Changed(tr, Some(ta), Some(tb), c.path, c.kind)
    ensures Apart(out)
    ensures multiset(out) == multiset(DiffList(tr, rank, [], Some(ta), Some(tb))) ==>
              forall p, k :: Changed(tr, Some(ta), Some(tb), p, k) ==> Report(p, k) in out
  {
    hide Changed, Find, Names, Pieces, Ranked, DiffList;
    var all := DiffList(tr, rank, [], Some(ta), Some(tb));
    forall c | c in out ensures Changed(tr, Some(ta), Some(tb), c.path, c.kind) {
      assert c in multiset(all);
      ListedIffChanged(tr, rank, [], Some(ta), Some(tb), c);
      assert c.path[0..] == c.path;
    }
    ListedOnce(tr, rank, [], Some(ta), Some(tb));
    PartIsApart(out, all);
    if multiset(out) == multiset(all) {
      forall p, k | Changed(tr, Some(ta), Some(tb), p, k) ensures Report(p, k) in out {
        ListedIffChanged(tr, rank, [], Some(ta), Some(tb), Report(p, k));
        assert p[0..] == p;
        assert Report(p, k) in multiset(out);
      }
    }
  }

  // --- how a path prints ----------------------------------------------------------------

  function Join(p: Path): string {
    if p == [] then ""
    else
      var prefix, n := Join(p[..|p| - 1]), p[|p| - 1];
      if prefix == "" then n else prefix + "/" + n
  }

  /** The parts between the slashes of what is printed: names are split at theirs, and empty
      names count for nothing as long as nothing else has been printed. */
  function Shown(p: Path): seq<string> {
    if p == [] then []
    else
      var prefix, n := Shown(p[..|p| - 1]), p[|p| - 1];
      if prefix == [] && n == "" then [] else prefix + Components(n)
  }

  lemma {:induction false} JoinShows(p: Path)
    ensures Shown(p) == if Join(p) == "" then [] else Components(Join(p))
  {
    if p != [] {
      JoinShows(p[..|p| - 1]);
      ComponentsAppend(Join(p[..|p| - 1]), p[|p| - 1]);
    }
  }

  lemma {:induction false} ComponentsAppend(a: string, b: string)
    ensures Components(a + "/" + b) == Components(a) + Components(b)
  {
    var s := a + "/" + b;
    if a == "" {
      assert s[1..] == b;
    } else {
      assert s[1..] == a[1..] + "/" + b;
      ComponentsAppend(a[1..], b);
    }
  }

  /** Nothing is lost by splitting. */
  lemma {:induction false} SplitIsExact(s: string, t: string)
    requires Components(s) == Components(t)
    ensures s == t
  {
    if s != "" && t != "" {
      var a, b := Components(s[1..]), Components(t[1..]);
      SplitSplits(s);
      SplitSplits(t);
      if s[0] == '/' {
        assert Components(s)[1..] == a && Components(t)[1..] == b;
      } else {
        assert a == [Components(s)[0][1..]] + Components(s)[1..];
        assert b == [Components(t)[0][1..]] + Components(t)[1..];
      }
      SplitIsExact(s[1..], t[1..]);
      assert s == [s[0]] + s[1..] && t == [t[0]] + t[1..];
    } else if s != "" {
      SplitSplits(s);
    } else if t != "" {
      SplitSplits(t);
    }
  }

  lemma SplitSplits(s: string)
    requires s != ""
    ensures var all, rest := Components(s), Components(s[1..]);
            if s[0] == '/' then all[0] == "" && all == [""] + rest && |all| > 1
            else all[0] == [s[0]] + rest[0] && all == [all[0]] + rest[1..] && all[0][0] == s[0] && all[0][1..] == rest[0]
  {
  }

  /** Exactly when two paths print alike. */
  lemma PathsPrintAlikeIff(p: Path, q: Path)
    ensures Join(p) == Join(q) <==> Shown(p) == Shown(q)
  {
    JoinShows(p);
    JoinShows(q);
    if Shown(p) == Shown(q) && Join(p) != "" && Join(q) != "" {
      SplitIsExact(Join(p), Join(q));
    }
  }

  predicate Plain(p: Path) {
    forall i :: 0 <= i < |p| ==> p[i] != "" && '/' !in p[i]
  }

  lemma {:induction false} PlainIsShown(p: Path)
    requires Plain(p)
    ensures Shown(p) == p
  {
    if p != [] {
      hide Components;
      PlainIsShown(p[..|p| - 1]);
      OneComponent(p[|p| - 1]);
      assert p == p[..|p| - 1] + [p[|p| - 1]];
    }
  }

  /** So names that are not empty and hold no slash keep printed paths apart as well. */
  lemma PlainPathsPrintApart(p: Path, q: Path)
    requires Plain(p) && Plain(q)
    ensures Join(p) == Join(q) <==> p == q
  {
    PlainIsShown(p);
    PlainIsShown(q);
    PathsPrintAlikeIff(p, q);
  }

  /** Every name in the stored trees is one git allows. */
  predicate PlainTrees(tr: Trees) {
    forall t, i :: t in tr && tr[t].Some? && 0 <= i < |tr[t].value| ==> Plain([tr[t].value[i].name])
  }

  lemma {:induction false} FoundIsPlain(tr: Trees, t: Option<Oid>, p: Path)
    requires PlainTrees(tr) && p != [] && At(tr, t, p).Some?
    ensures Plain(p)
    decreases |p|
  {
    var es := EntriesOf(tr, t);
    var e := Find(es, p[0]).value;
    var i :| 0 <= i < |es| && es[i] == e;
    assert Plain([tr[t.value].value[i].name]);
    assert [e.name][0] == p[0];
    if |p| > 1 {
      FoundIsPlain(tr, Some(e.oid), p[1..]);
      assert forall j :: 0 < j < |p| ==> p[j] == p[1..][j - 1];
    }
  }

  /** Between trees of such names no two changes print alike. */
  lemma ChangesPrintApart(tr: Trees, x: Option<Oid>, y: Option<Oid>, p: Path, k: Change, q: Path, l: Change)
    requires PlainTrees(tr) && Changed(tr, x, y, p, k) && Changed(tr, x, y, q, l)
    ensures Join(p) == Join(q) <==> p == q
  {
    hide PlainTrees, Join;
    forall r | r == p || r == q ensures Plain(r) {
      if At(tr, x, r).Some? {
        FoundIsPlain(tr, x, r);
      } else {
        FoundIsPlain(tr, y, r);
      }
    }
    PlainPathsPrintApart(p, q);
  }

  const FILE: nat := 0x81A4

  /** Any name with a slash can collide: from an empty tree to one with a file `x/y` beside a
      directory `x` with a file `y`, one path shows twice. */
  lemma SlashedNamesCollide(x: string, y: string) returns (tr: Trees, p: Path, q: Path)
    requires x != ""
    ensures p == [x + "/" + y] && q == [x, y]
    ensures 0 in tr && 1 in tr && Changed(tr, Some(0), Some(1), p, Added) && Changed(tr, Some(0), Some(1), q, Added)
    ensures p != q && Join(p) == Join(q)
  {
    var n := x + "/" + y;
    var top, sub := [TreeEntry(n, FILE, 5), TreeEntry(x, MODE_TREE, 2)], [TreeEntry(y, FILE, 6)];
    tr := map[0 := Some([]), 1 := Some(top), 2 := Some(sub)];
    p, q := [n], [x, y];
    assert |n| > |x|;
    assert EntriesOf(tr, Some(1)) == top && EntriesOf(tr, Some(2)) == sub && EntriesOf(tr, Some(0)) == EntriesOf(tr, None) == [];
    assert top[1..][0] == top[1];
    assert Find(top, n) == Some(top[0]) && Find(top, x) == Some(top[1]) && Find(sub, y) == Some(sub[0]);
    ChangedHere(tr, Some(0), Some(1), n, Added);
    ChangedHere(tr, None, Some(2), y, Added);
    assert q[1..] == [y];
    ChangedBelow(tr, Some(0), Some(1), q, Added);
    OneJoins(n);
    OneJoins(x);
    assert q[..1] == [x];
  }

  lemma OneJoins(n: string)
    ensures Join([n]) == n
  {
    assert [n][..0] == [];
  }
}
