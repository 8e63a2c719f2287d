/** depot/src/api.rs, `log`: the newest-first walk of the commit graph and its pages. */
module LogWalk {
  import opened Common
  import opened Git
  import opened ObjectIndex
  import opened SetSize

  /** The graph the walk follows: a commit's first link is its tree, the others its parents. */
  function ParentGraph(ix: Index): Index {
    ix.(objs := seq(|ix.objs|, i requires 0 <= i < |ix.objs| =>
                      ix.objs[i].(kids := if ix.objs[i].kids == [] then [] else ix.objs[i].kids[1..])))
  }

  lemma ParentGraphWf(ix: Index)
    requires Wf(ix)
    ensures Wf(ParentGraph(ix))
  {
  }

  ghost function Parents(g: Index, c: nat): (r: set<nat>)
    requires Wf(g) && c < |g.objs|
    ensures r <= Positions(g)
    ensures forall p :: p in r <==> Some(p) in g.objs[c].kids
  {
    set p | p in Resolved(g.objs[c].kids)
  }

  /** The heap orders by committer time, then by position. */
  predicate Newer(g: Index, x: nat, y: nat)
    requires x < |g.objs| && y < |g.objs|
  {
    g.objs[x].time > g.objs[y].time || (g.objs[x].time == g.objs[y].time && x >= y)
  }

  ghost predicate IsTop(g: Index, h: set<nat>, x: nat)
    requires h <= Positions(g)
  {
    x in h && forall y :: y in h ==> Newer(g, x, y)
  }

  lemma {:induction false} TopExists(g: Index, h: set<nat>)
    requires h <= Positions(g) && h != {}
    ensures exists x: nat :: IsTop(g, h, x)
  {
    var x :| x in h;
    var rest := h - {x};
    if rest == {} {
      assert IsTop(g, h, x);
    } else {
      TopExists(g, rest);
      var y: nat :| IsTop(g, rest, y);
      var top := if Newer(g, x, y) then x else y;
      forall z | z in h ensures Newer(g, top, z) {
        if z != x { assert z in rest && Newer(g, y, z); }
      }
      assert IsTop(g, h, top);
    }
  }

  ghost function Top(g: Index, h: set<nat>): (x: nat)
    requires h <= Positions(g) && h != {}
    ensures IsTop(g, h, x)
  {
    TopExists(g, h);
    var x: nat :| IsTop(g, h, x);
    x
  }

  lemma TopIsMember(g: Index, h: set<nat>)
    requires h <= Positions(g) && h != {}
    ensures Top(g, h) in h
  {
  }

  lemma TopIsUnique(g: Index, h: set<nat>, x: nat)
    requires h <= Positions(g) && IsTop(g, h, x)
    ensures x == Top(g, h)
  {
  }

  ghost function News(g: Index, h: set<nat>, seen: set<nat>): set<nat>
    requires Wf(g) && h <= seen <= Positions(g) && h != {}
  {
    Parents(g, Top(g, h)) - seen
  }

  ghost function NextHeap(g: Index, h: set<nat>, seen: set<nat>): (r: set<nat>)
    requires Wf(g) && h <= seen <= Positions(g) && h != {}
    ensures r <= seen + News(g, h, seen)
  {
    (h - {Top(g, h)}) + News(g, h, seen)
  }

  ghost function NextSeen(g: Index, h: set<nat>, seen: set<nat>): (r: set<nat>)
    requires Wf(g) && h <= seen <= Positions(g) && h != {}
    ensures seen <= r <= Positions(g)
  {
    seen + News(g, h, seen)
  }

  /** Either something new is pushed, or one fewer waits. */
  lemma WalkShrinks(g: Index, h: set<nat>, seen: set<nat>)
    requires Wf(g) && h <= seen <= Positions(g) && h != {}
    ensures NextHeap(g, h, seen) <= NextSeen(g, h, seen)
    ensures |seen| <= |NextSeen(g, h, seen)| <= |g.objs|
    ensures |seen| == |NextSeen(g, h, seen)| ==> |NextHeap(g, h, seen)| < |h|
  {
    SubsetSize(seen, NextSeen(g, h, seen));
    SubsetSize(NextSeen(g, h, seen), Positions(g));
    if |seen| == |NextSeen(g, h, seen)| {
      assert News(g, h, seen) == {};
      assert NextHeap(g, h, seen) == h - {Top(g, h)};
    }
  }

  /** What is left of the walk from frontier `h`, everything in `seen` having been pushed. */
  ghost function Walk(g: Index, h: set<nat>, seen: set<nat>): seq<nat>
    requires Wf(g) && h <= seen <= Positions(g)
    decreases |g.objs| - |seen|, |h|
  {
    if h == {} then []
    else
      WalkShrinks(g, h, seen);
      [Top(g, h)] + Walk(g, NextHeap(g, h, seen), NextSeen(g, h, seen))
  }

  lemma WalkUnfolds(g: Index, h: set<nat>, seen: set<nat>)
    requires Wf(g) && h <= seen <= Positions(g) && h != {}
    ensures NextHeap(g, h, seen) <= NextSeen(g, h, seen)
    ensures Walk(g, h, seen) == [Top(g, h)] + Walk(g, NextHeap(g, h, seen), NextSeen(g, h, seen))
  {
  }

  lemma NothingWaits(g: Index, seen: set<nat>)
    requires Wf(g) && seen <= Positions(g)
    ensures Walk(g, {}, seen) == []
  {
  }

  ghost function Order(g: Index, s: nat): seq<nat>
    requires Wf(g) && s < |g.objs|
  {
    Walk(g, {s}, {s})
  }

  /** Everything pushed but no longer waiting has had its parents pushed. */
  ghost predicate Settled(g: Index, h: set<nat>, seen: set<nat>)
    requires Wf(g) && h <= seen <= Positions(g)
  {
    forall c :: c in seen - h ==> Parents(g, c) <= seen
  }

  ghost function Members(s: seq<nat>): (r: set<nat>)
    ensures forall x :: x in r <==> x in s
  {
    set x | x in s
  }

  lemma ParentsAreKids(g: Index, c: nat, t: set<nat>)
    requires Wf(g) && c < |g.objs|
    ensures KidsIn(g.objs[c].kids, t) <==> Parents(g, c) <= t
  {
  }

  lemma ClosureStep(g: Index, h: set<nat>, seen: set<nat>)
    requires Wf(g) && h <= seen <= Positions(g) && h != {}
    ensures Closure(g, NextSeen(g, h, seen)) == Closure(g, seen)
  {
    hide Closure, Walk, Top;
    var c := Top(g, h);
    ParentsAreKids(g, c, Closure(g, seen));
    ClosureIsLeast(g, NextSeen(g, h, seen), Closure(g, seen));
    ClosureIsLeast(g, seen, Closure(g, NextSeen(g, h, seen)));
  }

  lemma StaysSettled(g: Index, h: set<nat>, seen: set<nat>)
    requires Wf(g) && h <= seen <= Positions(g) && h != {} && Settled(g, h, seen)
    ensures NextHeap(g, h, seen) <= NextSeen(g, h, seen)
    ensures Settled(g, NextHeap(g, h, seen), NextSeen(g, h, seen))
    ensures NextSeen(g, h, seen) - NextHeap(g, h, seen) == (seen - h) + {Top(g, h)}
  {
    var c, h', seen' := Top(g, h), NextHeap(g, h, seen), NextSeen(g, h, seen);
    assert seen' - h' == (seen - h) + {c};
    forall d | d in seen' - h' ensures Parents(g, d) <= seen' {
      if d != c { assert d in seen - h; }
    }
  }

  /** The walk visits exactly what is reachable and not visited yet, each commit once. */
  lemma {:induction false} WalkVisits(g: Index, h: set<nat>, seen: set<nat>)
    requires Wf(g) && h <= seen <= Positions(g) && Settled(g, h, seen)
    ensures Members(Walk(g, h, seen)) == Closure(g, seen) - (seen - h)
    ensures NoRepeats(Walk(g, h, seen))
    decreases |g.objs| - |seen|, |h|
  {
    if h == {} {
      NothingLeft(g, seen);
    } else {
      WalkShrinks(g, h, seen);
      StaysSettled(g, h, seen);
      WalkVisits(g, NextHeap(g, h, seen), NextSeen(g, h, seen));
      WalkVisitsOneMore(g, h, seen);
    }
  }

  lemma WalkVisitsOneMore(g: Index, h: set<nat>, seen: set<nat>)
    requires Wf(g) && h <= seen <= Positions(g) && Settled(g, h, seen) && h != {}
    requires NextHeap(g, h, seen) <= NextSeen(g, h, seen)
    requires var h', seen' := NextHeap(g, h, seen), NextSeen(g, h, seen);
             && Members(Walk(g, h', seen')) == Closure(g, seen') - (seen' - h')
             && NoRepeats(Walk(g, h', seen'))
    ensures Members(Walk(g, h, seen)) == Closure(g, seen) - (seen - h)
    ensures NoRepeats(Walk(g, h, seen))
  {
    hide *;
    TopIsMember(g, h);
    WalkUnfolds(g, h, seen);
    StaysSettled(g, h, seen);
    ClosureStep(g, h, seen);
    var c, rest := Top(g, h), Walk(g, NextHeap(g, h, seen), NextSeen(g, h, seen));
    OneMore(Closure(g, seen), seen - h, c, Members(rest));
    assert Members([c] + rest) == {c} + Members(rest);
    NoRepeatsCons(c, rest);
  }

  lemma NothingLeft(g: Index, seen: set<nat>)
    requires Wf(g) && seen <= Positions(g) && Settled(g, {}, seen)
    ensures Closure(g, seen) == seen && Members(Walk(g, {}, seen)) == {}
  {
    forall c | c in seen ensures KidsIn(g.objs[c].kids, seen) {
      assert c in seen - {};
      ParentsAreKids(g, c, seen);
    }
    hide Closure;
    ClosureIsLeast(g, seen, seen);
  }

  lemma OneMore(all: set<nat>, gone: set<nat>, c: nat, rest: set<nat>)
    requires c in all && c !in gone && rest == all - (gone + {c})
    ensures {c} + rest == all - gone && c !in rest
  {
  }

  lemma NoRepeatsCons(c: nat, rest: seq<nat>)
    requires c !in rest && NoRepeats(rest)
    ensures NoRepeats([c] + rest)
  {
    assert ([c] + rest)[1..] == rest;
  }

  predicate NoRepeats(s: seq<nat>) {
    s == [] || (s[0] !in s[1..] && NoRepeats(s[1..]))
  }

  /** Everything waiting, the start aside, is a parent of something visited. */
  ghost predicate HasChild(g: Index, done: seq<nat>, x: nat)
    requires Wf(g)
  {
    exists c :: c in done && c < |g.objs| && x in Parents(g, c)
  }

  lemma {:induction false} WalkFollowsChildren(g: Index, h: set<nat>, seen: set<nat>, done: seq<nat>, s: nat, i: nat)
    requires Wf(g) && h <= seen <= Positions(g)
    requires forall x :: x in h ==> x == s || HasChild(g, done, x)
    requires i < |Walk(g, h, seen)|
    ensures var w := Walk(g, h, seen); w[i] == s || HasChild(g, done + w[..i], w[i])
    decreases i
  {
    hide *;
    NothingWaits(g, seen);
    WalkUnfolds(g, h, seen);
    var c := Top(g, h);
    var h', seen' := NextHeap(g, h, seen), NextSeen(g, h, seen);
    var w, rest := Walk(g, h, seen), Walk(g, h', seen');
    TopIsMember(g, h);
    if i == 0 {
      assert done + w[..0] == done;
    } else {
      NextHaveChildren(g, h, seen, done, s);
      WalkFollowsChildren(g, h', seen', done + [c], s, i - 1);
      assert done + w[..i] == (done + [c]) + rest[..i - 1];
    }
  }

  lemma NextHaveChildren(g: Index, h: set<nat>, seen: set<nat>, done: seq<nat>, s: nat)
    requires Wf(g) && h <= seen <= Positions(g) && h != {}
    requires forall x :: x in h ==> x == s || HasChild(g, done, x)
    ensures forall x :: x in NextHeap(g, h, seen) ==> x == s || HasChild(g, done + [Top(g, h)], x)
  {
    var more := done + [Top(g, h)];
    assert Top(g, h) in more && forall d :: d in done ==> d in more;
    forall x | x in NextHeap(g, h, seen) ensures x == s || HasChild(g, more, x) {
      if x in h && x != s {
        assert HasChild(g, done, x);
        var d :| d in done && d < |g.objs| && x in Parents(g, d);
        assert d in more;
      }
    }
  }

  /** Committer times that never run backwards along the history. */
  ghost predicate ClocksAgree(g: Index)
    requires Wf(g)
  {
    forall c, p :: 0 <= c < |g.objs| && p in Parents(g, c) ==> g.objs[p].time <= g.objs[c].time
  }

  lemma NextIsOlder(g: Index, h: set<nat>, seen: set<nat>)
    requires Wf(g) && h <= seen <= Positions(g) && ClocksAgree(g) && h != {}
    ensures Top(g, h) in h
    ensures forall x :: x in NextHeap(g, h, seen) ==> x < |g.objs| && g.objs[x].time <= g.objs[Top(g, h)].time
  {
    var c := Top(g, h);
    forall x | x in NextHeap(g, h, seen) ensures x < |g.objs| && g.objs[x].time <= g.objs[c].time {
      if x in h { assert Newer(g, c, x); }
    }
  }

  lemma {:induction false} WalkIsNewestFirst(g: Index, h: set<nat>, seen: set<nat>, bound: int, i: nat, j: nat)
    requires Wf(g) && h <= seen <= Positions(g) && ClocksAgree(g)
    requires forall x :: x in h ==> g.objs[x].time <= bound
    requires i <= j < |Walk(g, h, seen)|
    ensures var w := Walk(g, h, seen);
            && w[i] < |g.objs| && w[j] < |g.objs|
            && g.objs[w[j]].time <= g.objs[w[i]].time <= bound
    decreases j
  {
    hide *;
    NothingWaits(g, seen);
    WalkUnfolds(g, h, seen);
    NextIsOlder(g, h, seen);
    var c := Top(g, h);
    var h', seen' := NextHeap(g, h, seen), NextSeen(g, h, seen);
    if j > 0 {
      WalkIsNewestFirst(g, h', seen', g.objs[c].time, if i == 0 then 0 else i - 1, j - 1);
    }
  }

  /** The walk of `log` visits every commit the start reaches by stored parent links, once each. */
  lemma LogVisitsAll(g: Index, s: nat)
    requires Wf(g) && s < |g.objs|
    ensures Members(Order(g, s)) == Closure(g, {s}) && NoRepeats(Order(g, s))
  {
    WalkVisits(g, {s}, {s});
  }

  /** Every commit but the start comes after one of its children. */
  lemma LogFollowsChildren(g: Index, s: nat, i: nat)
    requires Wf(g) && s < |g.objs| && i < |Order(g, s)|
    ensures Order(g, s)[i] == s || HasChild(g, Order(g, s)[..i], Order(g, s)[i])
  {
    hide *;
    OrderStarts(g, s);
    assert [] + Walk(g, {s}, {s}) == Walk(g, {s}, {s});
    WalkFollowsChildren(g, {s}, {s}, [], s, i);
    assert [] + Order(g, s)[..i] == Order(g, s)[..i];
  }

  /** Where clocks agree, the walk is newest first. */
  lemma LogIsNewestFirst(g: Index, s: nat, i: nat, j: nat)
    requires Wf(g) && s < |g.objs| && ClocksAgree(g) && i <= j < |Order(g, s)|
    ensures var w := Order(g, s); w[i] < |g.objs| && w[j] < |g.objs| && g.objs[w[j]].time <= g.objs[w[i]].time
  {
    WalkIsNewestFirst(g, {s}, {s}, g.objs[s].time, i, j);
  }

  // --- the history ----------------------------------------------------------------------

  /** `p` is among the links of `c` behind the first. */
  predicate IsParent(ix: Index, c: nat, p: nat) {
    c < |ix.objs| && exists j :: 0 < j < |ix.objs[c].kids| && ix.objs[c].kids[j] == Some(p)
  }

  /** What the walk takes for parents, and for times. */
  lemma ParentsAre(ix: Index, c: nat)
    requires Wf(ix) && c < |ix.objs|
    ensures Wf(ParentGraph(ix)) && |ParentGraph(ix).objs| == |ix.objs| && ParentGraph(ix).objs[c].time == ix.objs[c].time
    ensures forall p :: p in Parents(ParentGraph(ix), c) <==> IsParent(ix, c, p)
  {
    ParentGraphWf(ix);
    var kids := ix.objs[c].kids;
    forall p: nat | IsParent(ix, c, p) ensures Some(p) in ParentGraph(ix).objs[c].kids {
      var j :| 0 < j < |kids| && kids[j] == Some(p);
      assert ParentGraph(ix).objs[c].kids[j - 1] == Some(p);
    }
    forall p: nat | Some(p) in ParentGraph(ix).objs[c].kids ensures IsParent(ix, c, p) {
      var j :| 0 <= j < |kids[1..]| && kids[1..][j] == Some(p);
      assert kids[j + 1] == Some(p);
    }
  }

  /** A way back through the history, parent by parent. */
  ghost predicate Lineage(ix: Index, line: seq<nat>) {
    line != [] && forall i :: 0 < i < |line| ==> IsParent(ix, line[i - 1], line[i])
  }

  ghost predicate Descends(ix: Index, s: nat, c: nat) {
    exists line :: Lineage(ix, line) && line[0] == s && line[|line| - 1] == c
  }

  lemma OneDescends(ix: Index, s: nat)
    ensures Descends(ix, s, s)
  {
    assert Lineage(ix, [s]) && [s][0] == s;
  }

  lemma DescendsOn(ix: Index, s: nat, c: nat, p: nat)
    requires Descends(ix, s, c) && IsParent(ix, c, p)
    ensures Descends(ix, s, p)
  {
    var line :| Lineage(ix, line) && line[0] == s && line[|line| - 1] == c;
    var longer := line + [p];
    forall i | 0 < i < |longer| ensures IsParent(ix, longer[i - 1], longer[i]) {
      if i < |line| {
        assert IsParent(ix, line[i - 1], line[i]);
      }
    }
    assert Lineage(ix, longer) && longer[0] == s && longer[|longer| - 1] == p;
  }

  lemma {:induction false} LineageIsReached(ix: Index, line: seq<nat>, i: nat)
    requires Wf(ix) && Wf(ParentGraph(ix)) && Lineage(ix, line) && line[0] < |ix.objs| && i < |line|
    ensures line[i] in Closure(ParentGraph(ix), {line[0]})
  {
    var g := ParentGraph(ix);
    if i > 0 {
      LineageIsReached(ix, line, i - 1);
      ParentsAre(ix, line[i - 1]);
      assert IsParent(ix, line[i - 1], line[i]);
      ParentsAreKids(g, line[i - 1], Closure(g, {line[0]}));
      hide Closure;
    }
  }

  /** The log from an object visits that object, and exactly what lies behind it: what is reached
      going from parent to parent. */
  lemma LogVisitsTheHistory(ix: Index, s: nat, c: nat)
    requires Wf(ix) && s < |ix.objs|
    ensures Wf(ParentGraph(ix))
    ensures c in Order(ParentGraph(ix), s) <==> Descends(ix, s, c)
  {
    ParentGraphWf(ix);
    var g := ParentGraph(ix);
    LogVisitsAll(g, s);
    hide Order, Closure, Descends;
    assert c in Order(g, s) <==> c in Closure(g, {s});
    if Descends(ix, s, c) {
      DescentIsReached(ix, s, c);
    }
    if c in Closure(g, {s}) {
      ReachedDescends(ix, s);
    }
  }

  lemma DescentIsReached(ix: Index, s: nat, c: nat)
    requires Wf(ix) && Wf(ParentGraph(ix)) && s < |ix.objs| && Descends(ix, s, c)
    ensures c in Closure(ParentGraph(ix), {s})
  {
    var line :| Lineage(ix, line) && line[0] == s && line[|line| - 1] == c;
    LineageIsReached(ix, line, |line| - 1);
  }

  lemma ReachedDescends(ix: Index, s: nat)
    requires Wf(ix) && Wf(ParentGraph(ix)) && s < |ix.objs|
    ensures forall c :: c in Closure(ParentGraph(ix), {s}) ==> Descends(ix, s, c)
  {
    hide Closure, Descends;
    var g := ParentGraph(ix);
    var behind := set c | c in Positions(g) && Descends(ix, s, c);
    OneDescends(ix, s);
    forall c | c in behind ensures KidsIn(g.objs[c].kids, behind) {
      ParentsAre(ix, c);
      forall p | p in Parents(g, c) ensures p in behind {
        DescendsOn(ix, s, c, p);
      }
      ParentsAreKids(g, c, behind);
    }
    ClosureIsLeast(g, {s}, behind);
  }

  /** As git makes them: a commit links to its tree first, and then to commits. */
  ghost predicate CommitsLinkToCommits(ix: Index) {
    forall c: nat, p: nat :: c < |ix.objs| && ix.objs[c].kind == Commit && IsParent(ix, c, p) && p < |ix.objs| ==> ix.objs[p].kind == Commit
  }

  lemma {:induction false} LineageIsCommits(ix: Index, line: seq<nat>, i: nat)
    requires Wf(ix) && CommitsLinkToCommits(ix) && Lineage(ix, line) && i < |line|
    requires line[0] < |ix.objs| && ix.objs[line[0]].kind == Commit
    ensures line[i] < |ix.objs| && ix.objs[line[i]].kind == Commit
  {
    if i > 0 {
      LineageIsCommits(ix, line, i - 1);
      assert IsParent(ix, line[i - 1], line[i]);
    }
  }

  /** So the log of a commit is of commits. */
  lemma LogIsOfCommits(ix: Index, s: nat, c: nat)
    requires Wf(ix) && CommitsLinkToCommits(ix) && s < |ix.objs| && ix.objs[s].kind == Commit
    requires Wf(ParentGraph(ix)) && c in Order(ParentGraph(ix), s)
    ensures c < |ix.objs| && ix.objs[c].kind == Commit
  {
    hide Order;
    LogVisitsTheHistory(ix, s, c);
    var line :| Lineage(ix, line) && line[0] == s && line[|line| - 1] == c;
    LineageIsCommits(ix, line, |line| - 1);
  }

  // --- pages ----------------------------------------------------------------------------

  function Min(a: nat, b: nat): nat { if a < b then a else b }

  /** What `log` makes of the sizes asked for. */
  const MAX_PAGE := 200
  const MAX_SKIP := 100_000

  /** The page the loop picks: it stops after a pick, so a page of size 0 still picks one. */
  function Page<T>(order: seq<T>, skip: nat, n: nat): seq<T> {
    var from, size := Min(skip, |order|), if n == 0 then 1 else n;
    order[from..Min(from + size, |order|)]
  }

  /** The page `log` answers. */
  function Answer<T>(order: seq<T>, skip: nat, n: nat): seq<T> {
    Page(order, Min(skip, MAX_SKIP), Min(n, MAX_PAGE))
  }

  /** Two consecutive pages are one longer page exactly when the second would begin past the end
      of the history, or neither is asked for with size 0, the second begins within the cap on
      skipping, and the longer one is within the cap on sizes or reaches the end of the history. */
  lemma PagesComposeIff(order: seq<nat>, a: nat, b: nat, c: nat)
    requires NoRepeats(order)
    ensures Answer(order, a, b) + Answer(order, a + b, c) == Answer(order, a, b + c)
            <==> || Min(a + b, MAX_SKIP) >= |order|
                 || (b >= 1 && c >= 1 && a + b <= MAX_SKIP && (b + c <= MAX_PAGE || a + MAX_PAGE >= |order|))
  {
    hide *;
    EdgesMeetIff(|order|, a, b, c);
    AnswersJoinIff(order, a, b, c);
  }

  /** Where pages meet, in positions. */
  predicate Meet(size: nat, a: nat, b: nat, c: nat) {
    if Start(size, a + b) == End(size, a + b, c) then End(size, a, b) == End(size, a, b + c)
    else Start(size, a + b) == End(size, a, b) && End(size, a + b, c) == End(size, a, b + c)
  }

  lemma AnswersJoinIff(order: seq<nat>, a: nat, b: nat, c: nat)
    requires NoRepeats(order)
    ensures Answer(order, a, b) + Answer(order, a + b, c) == Answer(order, a, b + c) <==> Meet(|order|, a, b, c)
  {
    hide Answer, NoRepeats, Start, End, Min;
    var size := |order|;
    AnswerIsSlice(order, a, b);
    AnswerIsSlice(order, a + b, c);
    AnswerIsSlice(order, a, b + c);
    LongerEndsLater(size, a, b, c);
    SlicesJoinIff(order, Start(size, a), End(size, a, b), Start(size, a + b), End(size, a + b, c), End(size, a, b + c));
  }

  lemma LongerEndsLater(size: nat, a: nat, b: nat, c: nat)
    ensures End(size, a, b) <= End(size, a, b + c)
  {
  }

  lemma AnswerIsSlice(order: seq<nat>, skip: nat, n: nat)
    ensures Start(|order|, skip) <= End(|order|, skip, n) <= |order|
    ensures Answer(order, skip, n) == order[Start(|order|, skip)..End(|order|, skip, n)]
  {
  }

  lemma EdgesMeetIff(size: nat, a: nat, b: nat, c: nat)
    ensures Meet(size, a, b, c)
            <==> || Min(a + b, MAX_SKIP) >= size
                 || (b >= 1 && c >= 1 && a + b <= MAX_SKIP && (b + c <= MAX_PAGE || a + MAX_PAGE >= size))
  {
  }

  /** Where a page begins and ends. */
  function Start(size: nat, skip: nat): nat { Min(Min(skip, MAX_SKIP), size) }

  function End(size: nat, skip: nat, n: nat): nat {
    Min(Start(size, skip) + (if n == 0 then 1 else Min(n, MAX_PAGE)), size)
  }

  /** With nothing twice in it, slices join to a slice only where they meet. */
  lemma SlicesJoinIff(order: seq<nat>, i: nat, j: nat, k: nat, l: nat, m: nat)
    requires NoRepeats(order) && i <= j <= m <= |order| && k <= l <= |order|
    ensures order[i..j] + order[k..l] == order[i..m] <==> if k == l then j == m else k == j && l == m
  {
    if k < l && j < m {
      if order[i..j] + order[k..l] == order[i..m] {
        assert (order[i..j] + order[k..l])[j - i] == order[k];
        assert order[i..m][j - i] == order[j];
        if k < j { NoRepeatsAt(order, k, j); }
        if j < k { NoRepeatsAt(order, j, k); }
      }
    }
    hide NoRepeats;
    var one, two, whole := order[i..j], order[k..l], order[i..m];
    if one + two == whole {
      assert |one + two| == |whole|;
    }
    if (k == l && j == m) || (k == j && l == m) {
      assert one + two == whole;
    }
  }

  lemma {:induction false} NoRepeatsAt(s: seq<nat>, i: nat, j: nat)
    requires NoRepeats(s) && i < j < |s|
    ensures s[i] != s[j]
  {
    if i == 0 {
      assert s[j] == s[1..][j - 1];
    } else {
      NoRepeatsAt(s[1..], i - 1, j - 1);
    }
  }

  lemma {:induction false} MemberCount(s: seq<nat>)
    requires NoRepeats(s)
    ensures |Members(s)| == |s|
  {
    if s != [] {
      MemberCount(s[1..]);
      assert s == [s[0]] + s[1..];
      assert Members(s) == {s[0]} + Members(s[1..]);
    } else {
      assert Members(s) == {};
    }
  }

  /** On the walk `log` makes. */
  lemma LogPagesComposeIff(g: Index, s: nat, a: nat, b: nat, c: nat)
    requires Wf(g) && s < |g.objs|
    ensures var all, size := Order(g, s), |Closure(g, {s})|;
            Answer(all, a, b) + Answer(all, a + b, c) == Answer(all, a, b + c)
            <==> || Min(a + b, MAX_SKIP) >= size
                 || (b >= 1 && c >= 1 && a + b <= MAX_SKIP && (b + c <= MAX_PAGE || a + MAX_PAGE >= size))
  {
    LogVisitsAll(g, s);
    MemberCount(Order(g, s));
    PagesComposeIff(Order(g, s), a, b, c);
  }

  method PopTop(g: Index, h: set<nat>) returns (x: nat)
    requires h <= Positions(g) && h != {}
    ensures x == Top(g, h)
  {
    x :| x in h;
    var rest := h - {x};
    while rest != {}
      invariant rest <= h && x in h - rest
      invariant forall y :: y in h && y !in rest ==> Newer(g, x, y)
      decreases |rest|
    {
      var y :| y in rest;
      if !Newer(g, x, y) {
        x := y;
      }
      rest := rest - {y};
    }
    TopIsUnique(g, h, x);
  }

  /** `log`: the positions picked are a page of the walk from `s`, its sizes capped: at most so
      many, all from the history of `s`. */
  method Log(ix: Index, s: nat, skip: nat, n: nat) returns (picked: seq<nat>)
    requires Wf(ix) && s < |ix.objs|
    ensures Wf(ParentGraph(ix))
    ensures picked == Answer(Order(ParentGraph(ix), s), skip, n)
    ensures |picked| <= MAX_PAGE && forall c :: c in picked ==> Descends(ix, s, c)
  {
    ParentGraphWf(ix);
    picked := PickPage(ParentGraph(ix), s, Min(skip, MAX_SKIP), Min(n, MAX_PAGE));
    AnswerIsSlice(Order(ParentGraph(ix), s), skip, n);
    forall c | c in picked ensures Descends(ix, s, c) {
      LogVisitsTheHistory(ix, s, c);
    }
  }

  /** What has been picked once `done` has been visited. */
  ghost function Picked(done: seq<nat>, skip: nat): seq<nat> {
    if |done| <= skip then [] else done[skip..]
  }

  lemma PickedNext(done: seq<nat>, skip: nat, c: nat)
    ensures Picked(done + [c], skip) == Picked(done, skip) + (if |done| >= skip then [c] else [])
  {
  }

  /** The page is complete when enough is picked, or when everything has been visited. */
  lemma PageIsPicked(done: seq<nat>, rest: seq<nat>, skip: nat, n: nat)
    requires |Picked(done, skip)| == (if n == 0 then 1 else n) || (rest == [] && |Picked(done, skip)| < (if n == 0 then 1 else n))
    ensures Picked(done, skip) == Page(done + rest, skip, n)
  {
    if |done| > skip {
      assert (done + rest)[skip..|done|] == done[skip..];
    }
  }

  lemma NothingPicked(skip: nat)
    ensures Picked([], skip) == []
  {
  }

  lemma OrderStarts(g: Index, s: nat)
    requires Wf(g) && s < |g.objs|
    ensures Order(g, s) == [] + Walk(g, {s}, {s})
  {
  }

  method PickPage(g: Index, s: nat, skip: nat, n: nat) returns (picked: seq<nat>)
    requires Wf(g) && s < |g.objs|
    ensures picked == Page(Order(g, s), skip, n)
  {
    hide *;
    OrderStarts(g, s);
    ghost var order, done := Order(g, s), [];
    var heap, seen := {s}, {s};
    picked := [];
    var k := 0;
    NothingPicked(skip);
    while heap != {}
      invariant heap <= seen <= Positions(g)
      invariant order == done + Walk(g, heap, seen) && k == |done|
      invariant picked == Picked(done, skip) && |picked| < (if n == 0 then 1 else n)
      decreases |g.objs| - |seen|, |heap|
    {
      var c := PopTop(g, heap);
      WalkShrinks(g, heap, seen);
      WalkUnfolds(g, heap, seen);
      ghost var rest := Walk(g, NextHeap(g, heap, seen), NextSeen(g, heap, seen));
      assert order == (done + [c]) + rest;
      PickedNext(done, skip, c);
      if k >= skip {
        picked := picked + [c];
        if |picked| >= n {
          PageIsPicked(done + [c], rest, skip, n);
          return;
        }
      }
      assert Picked(done + [c], skip) == picked;
      k := k + 1;
      done := done + [c];
      heap, seen := PushParents(g, c, heap, seen);
    }
    NothingWaits(g, seen);
    PageIsPicked(done, [], skip, n);
    assert done + [] == done;
  }

  /** `seen.insert(p)` guards the push, so every commit enters the heap once. */
  method PushParents(g: Index, c: nat, heap: set<nat>, seen: set<nat>) returns (heap': set<nat>, seen': set<nat>)
    requires Wf(g) && heap <= seen <= Positions(g) && heap != {} && c == Top(g, heap)
    ensures heap' == NextHeap(g, heap, seen) && seen' == NextSeen(g, heap, seen)
  {
    var parents := Resolved(g.objs[c].kids);
    heap', seen' := heap - {c}, seen;
    var i := 0;
    while i < |parents|
      invariant i <= |parents|
      invariant var news := Members(parents[..i]) - seen; heap' == (heap - {c}) + news && seen' == seen + news
    {
      assert parents[..i + 1] == parents[..i] + [parents[i]];
      if parents[i] !in seen' {
        heap', seen' := heap' + {parents[i]}, seen' + {parents[i]};
      }
      i := i + 1;
    }
    assert parents[..i] == parents;
    assert Members(parents) == Parents(g, c);
  }
}
