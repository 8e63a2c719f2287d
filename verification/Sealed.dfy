/** The promise of a sealed poll, over two histories at once. */
module Sealed {
  import opened Common
  import opened Ballots

  /** What may be known of a poll: of a sealed one, who has voted but not for what, and the
      tally once it is closed; of a live one, everything. */
  datatype Veiled = Veiled(sheet: Sheet, counts: Option<seq<nat>>, ballots: Option<map<string, nat>>)

  function Veil(p: Sheet): Veiled {
    Veiled(p.(ballots := map v | v in p.ballots :: 0),
           if Shown(p) then Some(Tally(p.ballots, |p.options|)) else None,
           if p.sealed then None else Some(p.ballots))
  }

  ghost predicate Alike(s1: Board, s2: Board) {
    && s1.created == s2.created && s1.votesCast == s2.votesCast && s1.closed == s2.closed && s1.expired == s2.expired
    && s1.polls.Keys == s2.polls.Keys
    && forall id :: id in s1.polls ==> Veil(s1.polls[id]) == Veil(s2.polls[id])
  }

  predicate InSealedPoll(s: Board, id: string, c: Option<nat>) {
    && id in s.polls && s.polls[id].sealed && s.polls[id].closedAt.None?
    && c.Some? && c.value < |s.polls[id].options|
  }

  /** The same request, but for which of its options a sealed open poll is given. */
  predicate SameButChoice(s: Board, r1: Request, r2: Request) {
    || r1 == r2
    || (r1.Vote? && r2.Vote? && r2 == r1.(choice := r2.choice) && InSealedPoll(s, r1.id, r1.choice) && InSealedPoll(s, r1.id, r2.choice))
  }

  /** The request breaks a seal. */
  predicate Reveals(hash: Hash, s: Board, r: Request, t: nat) {
    && r.Close? && Found(s, r.id, t) && Opens(hash, s.polls[r.id], r.token)
    && s.polls[r.id].sealed && s.polls[r.id].closedAt.None?
  }

  predicate SameTally(s1: Board, s2: Board, id: string) {
    id in s1.polls && id in s2.polls && Tally(s1.polls[id].ballots, |s1.polls[id].options|) == Tally(s2.polls[id].ballots, |s2.polls[id].options|)
  }

  /** Two histories with the same requests but for choices in sealed open polls, where every
      seal broken shows the same tally in both. */
  ghost predicate Twins(hash: Hash, s1: Board, s2: Board, h1: seq<Moment>, h2: seq<Moment>)
    decreases |h1|
  {
    && |h1| == |h2|
    && (h1 != [] ==>
          && h1[0].t == h2[0].t && h1[0].u == h2[0].u
          && SameButChoice(s1, h1[0].r, h2[0].r)
          && (Reveals(hash, s1, h1[0].r, h1[0].t) ==> SameTally(s1, s2, h1[0].r.id))
          && Twins(hash, Serve(hash, s1, h1[0].r, h1[0].t, h1[0].u).board, Serve(hash, s2, h2[0].r, h2[0].t, h2[0].u).board, h1[1..], h2[1..]))
  }

  lemma VeilTells(p: Sheet, q: Sheet)
    requires Veil(p) == Veil(q)
    ensures p.ballots.Keys == q.ballots.Keys && |p.ballots| == |q.ballots|
    ensures p.question == q.question && p.options == q.options && p.sealed == q.sealed && p.admin == q.admin
    ensures p.closedAt == q.closedAt && p.expiresAt == q.expiresAt
    ensures Shown(p) ==> Tally(p.ballots, |p.options|) == Tally(q.ballots, |q.options|)
    ensures !p.sealed ==> p == q
  {
    assert Veil(p).sheet == Veil(q).sheet;
    assert p.ballots.Keys == Veil(p).sheet.ballots.Keys;
    assert q.ballots.Keys == Veil(q).sheet.ballots.Keys;
    assert |p.ballots| == |p.ballots.Keys| && |q.ballots| == |q.ballots.Keys|;
  }

  lemma CastAlike(a: map<string, Sheet>, b: map<string, Sheet>)
    requires a.Keys == b.Keys && forall id :: id in a ==> Veil(a[id]) == Veil(b[id])
    ensures Cast(a) == Cast(b) && |a| == |b|
  {
    forall id | id in a ensures a[id].ballots.Keys == b[id].ballots.Keys {
      VeilTells(a[id], b[id]);
    }
    assert |a| == |a.Keys| && |b| == |b.Keys|;
    forall x | x in Cast(a) ensures x in Cast(b) {}
    forall x | x in Cast(b) ensures x in Cast(a) {}
  }

  lemma MissedAlike(s1: Board, s2: Board, id: string)
    requires Alike(s1, s2)
    ensures Alike(Missed(s1, id), Missed(s2, id))
  {
  }

  lemma FoundAlike(s1: Board, s2: Board, id: string, t: nat)
    requires Alike(s1, s2)
    ensures Found(s1, id, t) == Found(s2, id, t)
    ensures id in s1.polls ==> id in s2.polls && Veil(s1.polls[id]) == Veil(s2.polls[id])
    ensures Alike(Missed(s1, id), Missed(s2, id))
  {
    if id in s1.polls {
      VeilTells(s1.polls[id], s2.polls[id]);
    }
    MissedAlike(s1, s2, id);
  }

  /** The poll with one more ballot, or one moved. */
  function Marked(p: Sheet, v: string, c: nat): Sheet {
    p.(ballots := p.ballots[v := c])
  }

  lemma MarkedAlike(p: Sheet, q: Sheet, v: string, c: nat, d: nat)
    requires Veil(p) == Veil(q) && (c == d || (p.sealed && p.closedAt.None?))
    requires p.closedAt.None?
    ensures Veil(Marked(p, v, c)) == Veil(Marked(q, v, d))
  {
    hide Tally;
    VeilTells(p, q);
    assert Veil(Marked(p, v, c)).sheet.ballots == Veil(Marked(q, v, d)).sheet.ballots;
  }

  lemma UpdatedAlike(s1: Board, s2: Board, id: string, p: Sheet, q: Sheet)
    requires Alike(s1, s2) && Veil(p) == Veil(q)
    ensures Alike(s1.(polls := s1.polls[id := p], votesCast := s1.votesCast + 1), s2.(polls := s2.polls[id := q], votesCast := s2.votesCast + 1))
    ensures Alike(s1.(polls := s1.polls[id := p], closed := s1.closed + 1), s2.(polls := s2.polls[id := q], closed := s2.closed + 1))
  {
    hide Veil;
  }

  lemma VotingAlike(hash: Hash, s1: Board, s2: Board, r1: Request, r2: Request, t: nat)
    requires Alike(s1, s2) && r1.Vote? && SameButChoice(s1, r1, r2)
    ensures var a, b := Voting(hash, s1, r1.id, r1.voter, r1.choice, t), Voting(hash, s2, r2.id, r2.voter, r2.choice, t);
            a.resp == b.resp && a.event == b.event && Alike(a.board, b.board)
  {
    hide Tally, Veil, Found, Alike, Missed;
    var id := r1.id;
    FoundAlike(s1, s2, id, t);
    if Found(s1, id, t) {
      FoundIsHeld(s1, id, t);
      FoundIsHeld(s2, id, t);
      var p, q := s1.polls[id], s2.polls[id];
      VeilTells(p, q);
      if r1.choice.Some? && r1.choice.value < |p.options| && p.closedAt.None? {
        var v := hash(r1.voter);
        var p', q' := Marked(p, v, r1.choice.value), Marked(q, v, r2.choice.value);
        MarkedAlike(p, q, v, r1.choice.value, r2.choice.value);
        VeilTells(p', q');
        UpdatedAlike(s1, s2, id, p', q');
      }
    }
  }

  lemma FoundIsHeld(s: Board, id: string, t: nat)
    requires Found(s, id, t)
    ensures id in s.polls
  {
  }

  lemma ClosingAlike(hash: Hash, s1: Board, s2: Board, r: Request, t: nat, u: nat)
    requires Alike(s1, s2) && r.Close?
    requires Reveals(hash, s1, r, t) ==> SameTally(s1, s2, r.id)
    ensures var a, b := Closing(hash, s1, r.id, r.token, t, u), Closing(hash, s2, r.id, r.token, t, u);
            a.resp == b.resp && a.event == b.event && Alike(a.board, b.board)
  {
    hide Tally, Veil, Found, Alike, Missed;
    FoundAlike(s1, s2, r.id, t);
    if Found(s1, r.id, t) {
      FoundIsHeld(s1, r.id, t);
      FoundIsHeld(s2, r.id, t);
      var p, q := s1.polls[r.id], s2.polls[r.id];
      VeilTells(p, q);
      if Opens(hash, p, r.token) && p.closedAt.None? {
        ClosedAlike(p, q, u);
        UpdatedAlike(s1, s2, r.id, p.(closedAt := Some(u)), q.(closedAt := Some(u)));
      }
    }
  }

  lemma ClosedAlike(p: Sheet, q: Sheet, u: nat)
    requires Veil(p) == Veil(q) && Tally(p.ballots, |p.options|) == Tally(q.ballots, |q.options|)
    ensures Veil(p.(closedAt := Some(u))) == Veil(q.(closedAt := Some(u)))
  {
    hide Tally;
    VeilTells(p, q);
    assert Veil(p).sheet == Veil(q).sheet;
  }

  lemma KeptByDates(p: Sheet, q: Sheet, t: nat)
    requires p.closedAt == q.closedAt && p.expiresAt == q.expiresAt
    ensures Kept(p, t) == Kept(q, t)
  {
  }

  lemma SweepingAlike(s1: Board, s2: Board, t: nat)
    requires Alike(s1, s2)
    ensures Sweeping(s1, t).resp == Sweeping(s2, t).resp && Sweeping(s1, t).event == Sweeping(s2, t).event
    ensures Alike(Sweeping(s1, t).board, Sweeping(s2, t).board)
  {
    hide Veil, Cast, Kept;
    forall id | id in s1.polls
      ensures Kept(s1.polls[id], t) == Kept(s2.polls[id], t)
      ensures s1.polls[id].closedAt == s2.polls[id].closedAt && s1.polls[id].expiresAt == s2.polls[id].expiresAt
    {
      VeilTells(s1.polls[id], s2.polls[id]);
      KeptByDates(s1.polls[id], s2.polls[id], t);
    }
    assert Lapsed(s1, t) == Lapsed(s2, t);
    CastAlike(Sweeping(s1, t).board.polls, Sweeping(s2, t).board.polls);
  }

  lemma CreationAlike(s1: Board, s2: Board, r: Request, t: nat)
    requires Alike(s1, s2) && r.Create?
    ensures Creation(s1, r, t).resp == Creation(s2, r, t).resp && Creation(s1, r, t).event == Creation(s2, r, t).event
    ensures Alike(Creation(s1, r, t).board, Creation(s2, r, t).board)
  {
    hide Veil, WellFormed, Blank;
    assert |s1.polls| == |s1.polls.Keys| && |s2.polls| == |s2.polls.Keys|;
  }

  lemma StepAlike(hash: Hash, s1: Board, s2: Board, r1: Request, r2: Request, t: nat, u: nat)
    requires Alike(s1, s2) && SameButChoice(s1, r1, r2)
    requires Reveals(hash, s1, r1, t) ==> SameTally(s1, s2, r1.id)
    ensures var a, b := Serve(hash, s1, r1, t, u), Serve(hash, s2, r2, t, u);
            a.resp == b.resp && a.event == b.event && Alike(a.board, b.board)
  {
    hide Alike, Voting, Closing, Sweeping, Creation, Tally;
    match r1
    case Create(_, _, _, _, _) => CreationAlike(s1, s2, r1, t);
    case Show(id) => LookAlike(s1, s2, id, t, u);
    case Watch(id) => LookAlike(s1, s2, id, t, u);
    case Vote(_, _, _) => VotingAlike(hash, s1, s2, r1, r2, t);
    case Close(_, _) => ClosingAlike(hash, s1, s2, r1, t, u);
    case Stats => StatsAlike(s1, s2);
    case Sweep => SweepingAlike(s1, s2, t);
  }

  lemma LookAlike(s1: Board, s2: Board, id: string, t: nat, u: nat)
    requires Alike(s1, s2)
    ensures Found(s1, id, t) == Found(s2, id, t)
    ensures Found(s1, id, t) ==> StateOf(s1.polls[id], u) == StateOf(s2.polls[id], u)
    ensures Alike(Missed(s1, id), Missed(s2, id))
  {
    FoundAlike(s1, s2, id, t);
    if id in s1.polls {
      VeilTells(s1.polls[id], s2.polls[id]);
    }
  }

  lemma StatsAlike(s1: Board, s2: Board)
    requires Alike(s1, s2)
    ensures |s1.polls| == |s2.polls| && |Cast(s1.polls)| == |Cast(s2.polls)|
    ensures s1.created == s2.created && s1.votesCast == s2.votesCast
  {
    CastAlike(s1.polls, s2.polls);
  }

  /** Of the ballots in sealed polls nothing shows but the tallies of those that were closed:
      no answer, event or total tells two such histories apart, at any point. */
  lemma {:induction false} OnlyTalliesShow(hash: Hash, s1: Board, s2: Board, h1: seq<Moment>, h2: seq<Moment>)
    requires Alike(s1, s2) && Twins(hash, s1, s2, h1, h2)
    ensures Seen(hash, s1, h1) == Seen(hash, s2, h2)
    ensures Alike(After(hash, s1, h1), After(hash, s2, h2))
    decreases |h1|
  {
    hide Alike, Serve, SameButChoice, Reveals, SameTally;
    if h1 != [] {
      StepAlike(hash, s1, s2, h1[0].r, h2[0].r, h1[0].t, h1[0].u);
      OnlyTalliesShow(hash, Serve(hash, s1, h1[0].r, h1[0].t, h1[0].u).board, Serve(hash, s2, h2[0].r, h2[0].t, h2[0].u).board, h1[1..], h2[1..]);
    }
  }

  // --- one poll -------------------------------------------------------------------------

  /** Two histories that differ only in choices given to poll `x` while it is sealed and open,
      and in which its seal is not broken. */
  ghost predicate VotesDifferIn(hash: Hash, x: string, s: Board, h1: seq<Moment>, h2: seq<Moment>)
    decreases |h1|
  {
    && |h1| == |h2|
    && (h1 != [] ==>
          && h1[0].t == h2[0].t && h1[0].u == h2[0].u
          && (h1[0].r == h2[0].r || (h1[0].r.Vote? && h1[0].r.id == x && SameButChoice(s, h1[0].r, h2[0].r)))
          && !(Reveals(hash, s, h1[0].r, h1[0].t) && h1[0].r.id == x)
          && VotesDifferIn(hash, x, Serve(hash, s, h1[0].r, h1[0].t, h1[0].u).board, h1[1..], h2[1..]))
  }

  ghost predicate AwayFrom(x: string, s1: Board, s2: Board) {
    && Alike(s1, s2)
    && forall id :: id in s1.polls && (id != x || Shown(s1.polls[id])) ==> s1.polls[id] == s2.polls[id]
  }

  lemma StepAway(hash: Hash, x: string, s1: Board, s2: Board, r1: Request, r2: Request, t: nat, u: nat)
    requires AwayFrom(x, s1, s2)
    requires r1 == r2 || (r1.Vote? && r1.id == x && SameButChoice(s1, r1, r2))
    requires !(Reveals(hash, s1, r1, t) && r1.id == x)
    ensures Reveals(hash, s1, r1, t) ==> SameTally(s1, s2, r1.id)
    ensures AwayFrom(x, Serve(hash, s1, r1, t, u).board, Serve(hash, s2, r2, t, u).board)
  {
    hide Tally, Creation, Cast, Veil, Serve, Found, Lapsed;
    if Reveals(hash, s1, r1, t) {
      FoundIsHeld(s1, r1.id, t);
      FoundAlike(s1, s2, r1.id, t);
    }
    StepAlike(hash, s1, s2, r1, r2, t, u);
    var a, b := Serve(hash, s1, r1, t, u).board, Serve(hash, s2, r2, t, u).board;
    forall id | id in a.polls && (id != x || Shown(a.polls[id])) ensures a.polls[id] == b.polls[id] {
      if id in s1.polls {
        VeilTells(s1.polls[id], s2.polls[id]);
        OnePoll(hash, s1, r1, id, t, u);
        OnePoll(hash, s2, r2, id, t, u);
        var p := s1.polls[id];
        assert (id != x || Shown(p)) && r1.Vote? && r1.id == id ==> r1 == r2 || p.closedAt.Some?;
      } else {
        Newcomer(hash, s1, s2, r1, id, t, u);
      }
    }
  }

  /** What a request can do to one poll that stays. */
  lemma OnePoll(hash: Hash, s: Board, r: Request, id: string, t: nat, u: nat)
    requires id in s.polls && id in Serve(hash, s, r, t, u).board.polls
    ensures var p, turn := s.polls[id], Serve(hash, s, r, t, u);
            turn.board.polls[id]
            == if r.Vote? && r.id == id && turn.resp.Voted? then
                 Marked(p, hash(r.voter), if r.choice.Some? then r.choice.value else 0)
               else if r.Close? && r.id == id && turn.resp.Tallied? && p.closedAt.None? then p.(closedAt := Some(u))
               else p
    ensures var resp := Serve(hash, s, r, t, u).resp;
            && (r.Vote? && r.id == id && resp.Voted? ==> s.polls[id].closedAt.None?)
            && (r.Close? && r.id == id && resp.Tallied? ==> Found(s, id, t) && Opens(hash, s.polls[id], r.token))
  {
    hide Tally, Cast, Lapsed, WellFormed, Blank;
  }

  lemma Newcomer(hash: Hash, s1: Board, s2: Board, r: Request, id: string, t: nat, u: nat)
    requires Alike(s1, s2) && id !in s1.polls && id in Serve(hash, s1, r, t, u).board.polls
    ensures r.Create? && id in Serve(hash, s2, r, t, u).board.polls
    ensures Serve(hash, s1, r, t, u).board.polls[id] == Serve(hash, s2, r, t, u).board.polls[id]
  {
    hide Veil, WellFormed, Blank, Tally, Cast;
    assert |s1.polls| == |s1.polls.Keys| && |s2.polls| == |s2.polls.Keys|;
  }

  lemma {:induction false} AwayAreTwins(hash: Hash, x: string, s1: Board, s2: Board, h1: seq<Moment>, h2: seq<Moment>)
    requires AwayFrom(x, s1, s2) && VotesDifferIn(hash, x, s1, h1, h2)
    ensures Twins(hash, s1, s2, h1, h2)
    decreases |h1|
  {
    hide AwayFrom, Serve, SameButChoice, Reveals, SameTally;
    if h1 != [] {
      StepAway(hash, x, s1, s2, h1[0].r, h2[0].r, h1[0].t, h1[0].u);
      SameIsSame(s1, h1[0].r, h2[0].r);
      AwayAreTwins(hash, x, Serve(hash, s1, h1[0].r, h1[0].t, h1[0].u).board, Serve(hash, s2, h2[0].r, h2[0].t, h2[0].u).board, h1[1..], h2[1..]);
    }
  }

  lemma SameIsSame(s: Board, r1: Request, r2: Request)
    ensures r1 == r2 ==> SameButChoice(s, r1, r2)
  {
  }

  /** Until a sealed poll is closed, nothing anyone is told depends on how its ballots were
      cast, whatever else goes on. */
  lemma SealHoldsUntilClose(hash: Hash, x: string, s: Board, h1: seq<Moment>, h2: seq<Moment>)
    requires VotesDifferIn(hash, x, s, h1, h2)
    ensures Seen(hash, s, h1) == Seen(hash, s, h2)
  {
    AwayAreTwins(hash, x, s, s, h1, h2);
    OnlyTalliesShow(hash, s, s, h1, h2);
  }

  /** And the close tells exactly the tally: twins it does not tell apart have equal ones. */
  lemma CloseTellsTally(hash: Hash, s1: Board, s2: Board, r: Request, t: nat, u: nat)
    requires Alike(s1, s2) && Reveals(hash, s1, r, t)
    ensures Serve(hash, s1, r, t, u).resp == Serve(hash, s2, r, t, u).resp <==> SameTally(s1, s2, r.id)
  {
    hide Tally;
    FoundAlike(s1, s2, r.id, t);
    VeilTells(s1.polls[r.id], s2.polls[r.id]);
  }
}
