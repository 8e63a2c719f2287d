/** What holds of the board after any history from the empty one. */
module BallotRuns {
  import opened Ascii
  import opened Common
  import opened Ballots
  import opened SetSize

  function Open(polls: map<string, Sheet>): set<string> {
    set id | id in polls && polls[id].closedAt.None?
  }

  ghost predicate Sound(s: Board) {
    && |s.polls| <= MAX_POLLS
    && |Open(s.polls)| + s.closed + s.expired == s.created
    && forall id :: id in s.polls ==> SoundSheet(s.polls[id]) && ValidId(id)
  }

  ghost predicate SoundSheet(p: Sheet) {
    && MIN_OPTIONS <= |p.options| <= MAX_OPTIONS
    && |p.ballots| <= MAX_VOTERS
    && forall v :: v in p.ballots ==> p.ballots[v] < |p.options|
  }

  lemma OpenChanges(polls: map<string, Sheet>, id: string, p: Sheet)
    ensures |Open(polls[id := p])| == |Open(polls - {id})| + (if p.closedAt.None? then 1 else 0)
    ensures |Open(polls - {id})| == |Open(polls)| - (if id in polls && polls[id].closedAt.None? then 1 else 0)
  {
    assert Open(polls[id := p]) - {id} == Open(polls - {id}) && Open(polls - {id}) == Open(polls) - {id};
    assert id in Open(polls[id := p]) <==> p.closedAt.None?;
    assert id in Open(polls) <==> id in polls && polls[id].closedAt.None?;
    hide *;
    SizeWithout(Open(polls[id := p]), id);
    SizeWithout(Open(polls), id);
  }

  lemma FewerPolls(a: map<string, Sheet>, b: map<string, Sheet>)
    requires a.Keys <= b.Keys
    ensures |a| <= |b|
  {
    SubsetSize(a.Keys, b.Keys);
    assert |a| == |a.Keys| && |b| == |b.Keys|;
  }

  lemma SoundUpdate(s: Board, id: string, p: Sheet)
    requires Sound(s) && id in s.polls && SoundSheet(p) && p.closedAt == s.polls[id].closedAt
    ensures Sound(s.(polls := s.polls[id := p], votesCast := s.votesCast + 1))
  {
    hide SoundSheet;
    OpenChanges(s.polls, id, p);
    assert s.polls[id := p].Keys == s.polls.Keys;
    FewerPolls(s.polls[id := p], s.polls);
  }

  lemma SoundMissed(s: Board, id: string, t: nat)
    requires Sound(s) && !Found(s, id, t)
    ensures Sound(Missed(s, id))
  {
    hide SoundSheet;
    if ValidId(id) && id in s.polls {
      OpenChanges(s.polls, id, s.polls[id]);
      FewerPolls(s.polls - {id}, s.polls);
    }
  }

  lemma SoundVoting(hash: Hash, s: Board, id: string, voter: string, choice: Option<nat>, t: nat)
    requires Sound(s)
    ensures Sound(Voting(hash, s, id, voter, choice, t).board)
  {
    hide Tally, Sound, ValidId;
    if !Found(s, id, t) {
      SoundMissed(s, id, t);
    } else {
      SoundAt(s, id);
      var p := s.polls[id];
      if choice.Some? && choice.value < |p.options| && (hash(voter) in p.ballots || |p.ballots| < MAX_VOTERS) {
        var q := p.(ballots := p.ballots[hash(voter) := choice.value]);
        assert q.ballots.Keys == p.ballots.Keys + {hash(voter)};
        assert |q.ballots| == |q.ballots.Keys| && |p.ballots| == |p.ballots.Keys|;
        SoundUpdate(s, id, q);
      }
    }
  }

  lemma SoundAt(s: Board, id: string)
    requires Sound(s) && id in s.polls
    ensures SoundSheet(s.polls[id])
  {
  }

  lemma SoundClosing(hash: Hash, s: Board, id: string, token: string, t: nat, u: nat)
    requires Sound(s)
    ensures Sound(Closing(hash, s, id, token, t, u).board)
  {
    hide Tally;
    if !Found(s, id, t) {
      SoundMissed(s, id, t);
    } else {
      var q := s.polls[id].(closedAt := Some(u));
      OpenChanges(s.polls, id, q);
      FewerPolls(s.polls[id := q], s.polls);
    }
  }

  lemma SoundCreation(s: Board, r: Request, t: nat)
    requires Sound(s) && r.Create?
    ensures Sound(Creation(s, r, t).board)
  {
    hide WellFormed, Blank, SoundSheet, Open, ValidId;
    if WellFormed(r) && r.id !in s.polls && |s.polls| < MAX_POLLS {
      BlankIsSound(r, t);
      OpenChanges(s.polls, r.id, Blank(r, t));
      assert s.polls - {r.id} == s.polls;
      assert s.polls[r.id := Blank(r, t)].Keys == s.polls.Keys + {r.id};
      assert |s.polls[r.id := Blank(r, t)]| == |s.polls[r.id := Blank(r, t)].Keys| && |s.polls| == |s.polls.Keys|;
    }
  }

  lemma BlankIsSound(r: Request, t: nat)
    requires r.Create? && WellFormed(r)
    ensures SoundSheet(Blank(r, t)) && Blank(r, t).closedAt.None? && ValidId(r.id)
  {
    hide ValidId, HexHash, Lower;
  }

  lemma SoundSweeping(s: Board, t: nat)
    requires Sound(s)
    ensures Sound(Sweeping(s, t).board)
  {
    hide SoundSheet, ValidId, Cast;
    var after := Sweeping(s, t).board;
    FewerPolls(after.polls, s.polls);
    assert Open(s.polls) == Open(after.polls) + Lapsed(s, t);
    assert Open(after.polls) * Lapsed(s, t) == {};
  }

  lemma StepIsSound(hash: Hash, s: Board, r: Request, t: nat, u: nat)
    requires Sound(s)
    ensures Sound(Serve(hash, s, r, t, u).board)
  {
    hide Sound, Voting, Closing, Creation, Sweeping, Found, Missed, Tally;
    match r
    case Create(_, _, _, _, _) => SoundCreation(s, r, t);
    case Show(id) => if !Found(s, id, t) { SoundMissed(s, id, t); }
    case Watch(id) => if !Found(s, id, t) { SoundMissed(s, id, t); }
    case Vote(id, voter, choice) => SoundVoting(hash, s, id, voter, choice, t);
    case Close(id, token) => SoundClosing(hash, s, id, token, t, u);
    case Stats =>
    case Sweep => SoundSweeping(s, t);
  }

  /** After any history the caps hold, every ballot names an option, and each poll ever created
      is open, or was closed, or expired. */
  lemma {:induction false} EveryBoardIsSound(hash: Hash, s: Board, h: seq<Moment>)
    requires Sound(s)
    ensures Sound(After(hash, s, h))
    decreases |h|
  {
    hide Sound, Serve;
    if h != [] {
      StepIsSound(hash, s, h[0].r, h[0].t, h[0].u);
      EveryBoardIsSound(hash, Serve(hash, s, h[0].r, h[0].t, h[0].u).board, h[1..]);
    }
  }

  lemma FromNothing(hash: Hash, h: seq<Moment>)
    ensures Sound(After(hash, EMPTY, h))
  {
    assert Open(EMPTY.polls) == {};
    EveryBoardIsSound(hash, EMPTY, h);
  }
}
