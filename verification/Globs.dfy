/** depot/src/git/mod.rs, `glob`: patterns in which a star stands for any run, matched with one
    point to come back to. The loop does not care whether a text is of bytes or of characters. */
module Globs {

  // --- what a pattern says --------------------------------------------------------------

  /** The pattern with a run in the place of each star. */
  function Fill<T(==)>(star: T, p: seq<T>, runs: seq<seq<T>>): seq<T> {
    if p == [] then []
    else if p[0] != star then [p[0]] + Fill(star, p[1..], runs)
    else if runs == [] then Fill(star, p[1..], [])
    else runs[0] + Fill(star, p[1..], runs[1..])
  }

  /** Some runs make the text of it. */
  ghost predicate Fits<T(!new)>(star: T, p: seq<T>, t: seq<T>) {
    exists runs :: Fill(star, p, runs) == t
  }

  /** The same, piece by piece. */
  ghost predicate Match<T(!new)>(star: T, p: seq<T>, t: seq<T>)
    decreases |p|
  {
    if p == [] then t == []
    else if p[0] != star then t != [] && t[0] == p[0] && Match(star, p[1..], t[1..])
    else exists k: nat :: k <= |t| && Match(star, p[1..], t[k..])
  }

  lemma {:induction false} FilledMatches<T(!new)>(star: T, p: seq<T>, runs: seq<seq<T>>)
    ensures Match(star, p, Fill(star, p, runs))
    decreases |p|
  {
    if p != [] {
      var t := Fill(star, p, runs);
      if p[0] != star {
        FilledMatches(star, p[1..], runs);
        assert t[1..] == Fill(star, p[1..], runs);
      } else if runs == [] {
        FilledMatches(star, p[1..], []);
        assert t[0..] == t;
      } else {
        FilledMatches(star, p[1..], runs[1..]);
        assert t[|runs[0]|..] == Fill(star, p[1..], runs[1..]);
      }
    }
  }

  lemma {:induction false} MatchFills<T(!new)>(star: T, p: seq<T>, t: seq<T>) returns (runs: seq<seq<T>>)
    requires Match(star, p, t)
    ensures Fill(star, p, runs) == t
    decreases |p|
  {
    runs := [];
    if p != [] {
      if p[0] != star {
        runs := MatchFills(star, p[1..], t[1..]);
        assert t == [t[0]] + t[1..];
      } else {
        var k: nat :| k <= |t| && Match(star, p[1..], t[k..]);
        var more := MatchFills(star, p[1..], t[k..]);
        runs := [t[..k]] + more;
        assert runs[1..] == more;
        assert t == t[..k] + t[k..];
      }
    }
  }

  lemma FitsIff<T(!new)>(star: T, p: seq<T>, t: seq<T>)
    ensures Fits(star, p, t) <==> Match(star, p, t)
  {
    if Fits(star, p, t) {
      var runs :| Fill(star, p, runs) == t;
      FilledMatches(star, p, runs);
    }
    if Match(star, p, t) {
      var runs := MatchFills(star, p, t);
    }
  }

  // --- coming back ----------------------------------------------------------------------

  /** What follows the last star passed fits somewhere behind `mark`. */
  ghost predicate Later<T(!new)>(star: T, p: seq<T>, t: seq<T>, from: nat, mark: nat)
    requires from <= |p|
  {
    exists k: nat :: mark < k <= |t| && Match(star, p[from..], t[k..])
  }

  /** The pattern between two places is plain, and stands in the text as it is. */
  predicate Literal<T(==)>(star: T, p: seq<T>, from: nat, pi: nat, t: seq<T>, mark: nat, ti: nat) {
    from <= pi <= |p| && mark <= ti <= |t| && p[from..pi] == t[mark..ti] && star !in p[from..pi]
  }

  /** Plain text is matched where it stands. */
  lemma {:induction false} LiteralFirst<T(!new)>(star: T, p: seq<T>, t: seq<T>, n: nat)
    requires n <= |p| && star !in p[..n] && Match(star, p, t)
    ensures n <= |t| && Match(star, p[n..], t[n..])
    decreases n
  {
    if n == 0 {
      assert p[0..] == p && t[0..] == t;
    } else {
      assert p[0] in p[..n] && p[..n] == [p[0]] + p[1..][..n - 1];
      LiteralFirst(star, p[1..], t[1..], n - 1);
      assert p[1..][n - 1..] == p[n..] && t[1..][n - 1..] == t[n..];
    }
  }

  /** The text may be matched by the pattern from `pi` on here, or from behind its last star later. */
  ghost predicate Open<T(!new)>(star: T, p: seq<T>, t: seq<T>, from: nat, pi: nat, mark: nat, ti: nat)
    requires from <= pi <= |p| && ti <= |t|
  {
    Match(star, p[pi..], t[ti..]) || (from > 0 && Later(star, p, t, from, mark))
  }

  /** At a second star the first need not be thought of again. */
  lemma NextStar<T(!new)>(star: T, p: seq<T>, t: seq<T>, from: nat, pi: nat, mark: nat, ti: nat)
    requires Literal(star, p, from, pi, t, mark, ti) && pi < |p| && p[pi] == star
    ensures Open(star, p, t, from, pi, mark, ti) <==> Open(star, p, t, pi + 1, pi + 1, ti, ti)
  {
    assert p[pi..][1..] == p[pi + 1..];
    forall k: nat | k <= |t[ti..]| ensures t[ti..][k..] == t[ti + k..] {
    }
    if from > 0 && Later(star, p, t, from, mark) {
      var k: nat :| mark < k <= |t| && Match(star, p[from..], t[k..]);
      var n := pi - from;
      assert p[from..][..n] == p[from..pi];
      assert |p[from..pi]| == |t[mark..ti]|;
      LiteralFirst(star, p[from..], t[k..], n);
      assert p[from..][n..] == p[pi..] && t[k..][n..] == t[k + n..];
      var m: nat :| m <= |t[k + n..]| && Match(star, p[pi..][1..], t[k + n..][m..]);
      assert t[k + n..][m..] == t[k + n + m..];
      assert Later(star, p, t, pi + 1, ti);
    }
    if Match(star, p[pi..], t[ti..]) {
      var m: nat :| m <= |t[ti..]| && Match(star, p[pi..][1..], t[ti..][m..]);
      assert t[ti..][m..] == t[ti + m..];
      if m > 0 {
        assert Later(star, p, t, pi + 1, ti);
      }
    }
    if Match(star, p[pi + 1..], t[ti..]) {
      assert t[ti..][0..] == t[ti..];
      assert Match(star, p[pi..][1..], t[ti..][0..]);
    }
    if Later(star, p, t, pi + 1, ti) {
      var k: nat :| ti < k <= |t| && Match(star, p[pi + 1..], t[k..]);
      assert t[ti..][k - ti..] == t[k..];
    }
  }

  lemma OneOn<T(!new)>(star: T, p: seq<T>, t: seq<T>, pi: nat, ti: nat)
    requires pi < |p| && ti < |t| && p[pi] != star
    ensures Match(star, p[pi..], t[ti..]) <==> p[pi] == t[ti] && Match(star, p[pi + 1..], t[ti + 1..])
  {
    assert p[pi..][1..] == p[pi + 1..] && t[ti..][1..] == t[ti + 1..];
  }

  lemma ComeBack<T(!new)>(star: T, p: seq<T>, t: seq<T>, from: nat, mark: nat)
    requires from <= |p| && mark < |t|
    ensures Later(star, p, t, from, mark) <==> Match(star, p[from..], t[mark + 1..]) || Later(star, p, t, from, mark + 1)
  {
  }

  /** At the end of the text nothing behind the mark is long enough. */
  lemma NothingLater<T(!new)>(star: T, p: seq<T>, t: seq<T>, from: nat, pi: nat, mark: nat)
    requires Literal(star, p, from, pi, t, mark, |t|)
    ensures !Later(star, p, t, from, mark)
  {
    if Later(star, p, t, from, mark) {
      var k: nat :| mark < k <= |t| && Match(star, p[from..], t[k..]);
      assert p[from..][..pi - from] == p[from..pi];
      assert |p[from..pi]| == |t[mark..]|;
      LiteralFirst(star, p[from..], t[k..], pi - from);
    }
  }

  predicate Stars<T(==)>(star: T, p: seq<T>) {
    p == [] || (p[0] == star && Stars(star, p[1..]))
  }

  lemma {:induction false} OnlyStars<T(!new)>(star: T, p: seq<T>)
    ensures Match(star, p, []) <==> Stars(star, p)
    decreases |p|
  {
    if p != [] {
      OnlyStars(star, p[1..]);
      var none: seq<T> := [];
      assert none[0..] == none;
      if p[0] == star && Match(star, p[1..], none) {
        assert Match(star, p[1..], none[0..]);
      }
    }
  }

  lemma StarsFrom<T>(star: T, p: seq<T>, pi: nat)
    requires pi <= |p|
    ensures Stars(star, p[pi..]) <==> pi == |p| || (p[pi] == star && Stars(star, p[pi + 1..]))
  {
    if pi < |p| {
      assert p[pi..][1..] == p[pi + 1..];
    }
  }

  // --- the loop -------------------------------------------------------------------------

  /** `glob`. */
  method Glob<T(==, !new)>(star: T, p: seq<T>, t: seq<T>) returns (r: bool)
    ensures r <==> Fits(star, p, t)
  {
    hide *;
    FitsIff(star, p, t);
    var pi: nat, ti: nat := 0, 0;
    // one past the last star, or 0
    var from: nat, mark: nat := 0, 0;
    Begins(star, p, t);
    while ti < |t|
      invariant Literal(star, p, from, pi, t, mark, ti) && from <= pi <= |p| && mark <= ti <= |t|
      invariant Match(star, p, t) <==> Open(star, p, t, from, pi, mark, ti)
      decreases |p| - from, |t| - mark, |t| - ti
    {
      if pi < |p| && p[pi] == star {
        NextStar(star, p, t, from, pi, mark, ti);
        pi := pi + 1;
        from, mark := pi, ti;
        Nothing(star, p, t, pi, ti);
      } else if pi < |p| && p[pi] == t[ti] {
        Further(star, p, t, from, pi, mark, ti);
        pi, ti := pi + 1, ti + 1;
      } else if from > 0 {
        Back(star, p, t, from, pi, mark, ti);
        pi, mark := from, mark + 1;
        ti := mark;
        Nothing(star, p, t, pi, ti);
      } else {
        Stuck(star, p, t, pi, mark, ti);
        return false;
      }
    }
    Ended(star, p, t, from, pi, mark);
    ghost var rest := p[pi..];
    while pi < |p| && p[pi] == star
      invariant pi <= |p|
      invariant Stars(star, rest) <==> Stars(star, p[pi..])
    {
      StarsFrom(star, p, pi);
      pi := pi + 1;
    }
    StarsFrom(star, p, pi);
    r := pi == |p|;
  }

  lemma Begins<T(!new)>(star: T, p: seq<T>, t: seq<T>)
    ensures Literal(star, p, 0, 0, t, 0, 0)
    ensures Match(star, p, t) <==> Open(star, p, t, 0, 0, 0, 0)
  {
    assert p[0..] == p && t[0..] == t;
  }

  lemma Nothing<T(!new)>(star: T, p: seq<T>, t: seq<T>, pi: nat, ti: nat)
    requires pi <= |p| && ti <= |t|
    ensures Literal(star, p, pi, pi, t, ti, ti)
  {
  }

  lemma Further<T(!new)>(star: T, p: seq<T>, t: seq<T>, from: nat, pi: nat, mark: nat, ti: nat)
    requires Literal(star, p, from, pi, t, mark, ti) && pi < |p| && ti < |t| && p[pi] != star && p[pi] == t[ti]
    ensures Literal(star, p, from, pi + 1, t, mark, ti + 1)
    ensures Open(star, p, t, from, pi, mark, ti) <==> Open(star, p, t, from, pi + 1, mark, ti + 1)
  {
    hide Match, Later;
    OneOn(star, p, t, pi, ti);
    assert p[from..pi + 1] == p[from..pi] + [p[pi]] && t[mark..ti + 1] == t[mark..ti] + [t[ti]];
  }

  lemma Back<T(!new)>(star: T, p: seq<T>, t: seq<T>, from: nat, pi: nat, mark: nat, ti: nat)
    requires Literal(star, p, from, pi, t, mark, ti) && ti < |t| && (pi < |p| ==> p[pi] != star && p[pi] != t[ti]) && from > 0
    ensures Open(star, p, t, from, pi, mark, ti) <==> Open(star, p, t, from, from, mark + 1, mark + 1)
  {
    Here(star, p, t, pi, ti);
    hide Match, Later;
    ComeBack(star, p, t, from, mark);
  }

  lemma Here<T(!new)>(star: T, p: seq<T>, t: seq<T>, pi: nat, ti: nat)
    requires pi <= |p| && ti < |t| && (pi < |p| ==> p[pi] != star && p[pi] != t[ti])
    ensures !Match(star, p[pi..], t[ti..])
  {
    if pi < |p| {
      OneOn(star, p, t, pi, ti);
    } else {
      assert p[pi..] == [];
    }
  }

  lemma Stuck<T(!new)>(star: T, p: seq<T>, t: seq<T>, pi: nat, mark: nat, ti: nat)
    requires pi <= |p| && ti < |t| && (pi < |p| ==> p[pi] != star && p[pi] != t[ti])
    ensures !Open(star, p, t, 0, pi, mark, ti)
  {
    Here(star, p, t, pi, ti);
  }

  lemma Ended<T(!new)>(star: T, p: seq<T>, t: seq<T>, from: nat, pi: nat, mark: nat)
    requires Literal(star, p, from, pi, t, mark, |t|)
    ensures Open(star, p, t, from, pi, mark, |t|) <==> Stars(star, p[pi..])
  {
    hide Match, Later;
    NothingLater(star, p, t, from, pi, mark);
    assert t[|t|..] == [];
    OnlyStars(star, p[pi..]);
  }

  // --- protection -----------------------------------------------------------------------

  const STAR := '*'

  /** Some pattern of the list says the name. */
  ghost predicate Named(patterns: seq<string>, name: string) {
    exists p :: p in patterns && Fits(STAR, p, name)
  }

  /** `is_protected`, and the other lists of patterns. */
  method IsNamed(patterns: seq<string>, name: string) returns (r: bool)
    ensures r <==> Named(patterns, name)
  {
    hide Fits;
    for i := 0 to |patterns|
      invariant forall k :: 0 <= k < i ==> !Fits(STAR, patterns[k], name)
    {
      var fits := Glob(STAR, patterns[i], name);
      if fits {
        return true;
      }
    }
    r := false;
  }
}
