/** ballot/src/main.rs: the server itself, which keeps one running count per option and moves a
    revoted ballot from pile to pile, against the requests of `Ballots`. */
module BallotServer {
  import opened Ascii
  import opened Common
  import opened Ballots
  import opened SetSize

  datatype Poll = Poll(
    question: string, options: seq<string>, sealed: bool, counts: seq<nat>, voters: map<string, nat>,
    admin: string, closed: bool, closedAt: Option<nat>, created: nat, expiresAt: nat)

  function SheetOf(p: Poll): Sheet {
    Sheet(p.question, p.options, p.sealed, p.voters, p.admin, p.closedAt, p.expiresAt)
  }

  /** The counts are a recount of the voters. */
  ghost predicate Counted(p: Poll) {
    && p.counts == Tally(p.voters, |p.options|)
    && (forall v :: v in p.voters ==> p.voters[v] < |p.options|)
    && (p.closed <==> p.closedAt.Some?)
  }

  lemma TallyAfterVote(ballots: map<string, nat>, n: nat, v: string, c: nat)
    requires c < n && forall w :: w in ballots ==> ballots[w] < n
    ensures var counts := Tally(ballots, n);
            var less := if v in ballots then counts[ballots[v] := Minus(counts[ballots[v]])] else counts;
            Tally(ballots[v := c], n) == less[c := less[c] + 1]
    ensures v in ballots ==> Tally(ballots, n)[ballots[v]] > 0
  {
    if v in ballots {
      assert v in Pile(ballots, ballots[v]);
    }
    forall d | 0 <= d < n
      ensures |Pile(ballots[v := c], d)|
           == |Pile(ballots, d)| - (if v in ballots && ballots[v] == d then 1 else 0) + (if c == d then 1 else 0)
    {
      PileAfterVote(ballots, v, c, d);
    }
  }

  lemma PileAfterVote(ballots: map<string, nat>, v: string, c: nat, d: nat)
    ensures |Pile(ballots[v := c], d)|
         == |Pile(ballots, d)| - (if v in ballots && ballots[v] == d then 1 else 0) + (if c == d then 1 else 0)
  {
    assert Pile(ballots[v := c], d) - {v} == Pile(ballots, d) - {v};
    hide *;
    InPile(ballots, v, d);
    InPile(ballots[v := c], v, d);
    SizeWithout(Pile(ballots[v := c], d), v);
    SizeWithout(Pile(ballots, d), v);
  }

  lemma InPile(ballots: map<string, nat>, v: string, d: nat)
    ensures v in Pile(ballots, d) <==> v in ballots && ballots[v] == d
  {
  }

  function Minus(n: nat): nat {
    if n > 0 then n - 1 else 0
  }

  lemma ClosedAtClose(p: Poll)
    requires Counted(p)
    ensures p.closed <==> p.closedAt.Some?
    ensures p.counts == Tally(p.voters, |p.options|)
  {
  }

  function PollJson(p: Poll, u: nat): PollState {
    PollState(p.question, p.options, p.sealed, p.closed, |p.voters|, if p.expiresAt > u then p.expiresAt - u else 0,
              if !p.sealed || p.closed then Some(p.counts) else None)
  }

  function Sheets(polls: map<string, Poll>): map<string, Sheet> {
    map id | id in polls :: SheetOf(polls[id])
  }

  lemma SheetsUpdated(polls: map<string, Poll>, id: string, p: Poll)
    ensures Sheets(polls[id := p]) == Sheets(polls)[id := SheetOf(p)]
    ensures Sheets(polls - {id}) == Sheets(polls) - {id}
    ensures |Sheets(polls)| == |polls|
    ensures id in Sheets(polls) <==> id in polls
    ensures id in polls ==> Sheets(polls)[id] == SheetOf(polls[id])
  {
    assert Sheets(polls).Keys == polls.Keys;
    assert |Sheets(polls)| == |Sheets(polls).Keys| && |polls| == |polls.Keys|;
  }

  class App {
    const hash: Hash
    var polls: map<string, Poll>
    var created: nat
    var votesCast: nat
    var closed: nat
    var expired: nat

    ghost predicate Valid()
      reads this
    {
      forall id :: id in polls ==> Counted(polls[id])
    }

    ghost function View(): Board
      reads this
    {
      Board(Sheets(polls), created, votesCast, closed, expired)
    }

    constructor (hash: Hash)
      ensures Valid() && View() == EMPTY && this.hash == hash
    {
      this.hash := hash;
      polls := map[];
      created, votesCast, closed, expired := 0, 0, 0, 0;
    }

    /** The part of `api_create` that reads the request. */
    method ReadCreate(r: Request, t: nat) returns (p: Option<Poll>)
      requires r.Create?
      ensures p.Some? <==> WellFormed(r)
      ensures p.Some? ==> SheetOf(p.value) == Blank(r, t) && Counted(p.value)
    {
      hide ValidId, HexHash, Lower, Tally, Texts, Readable;
      if !ValidId(r.id) {
        return None;
      }
      if r.adminHash.None? || !HexHash(r.adminHash.value) {
        return None;
      }
      var sealed := true;
      if r.mode == Some("live") {
        sealed := false;
      } else if r.mode != None && r.mode != Some("sealed") {
        return None;
      }
      var ttl := TtlOf(r.ttl);
      if ttl.None? || r.lines.None? || !Readable(r.lines.value) {
        return None;
      }
      var texts := Texts(r.lines.value);
      TextsSize(r.lines.value);
      if !(1 + MIN_OPTIONS <= |texts| <= 1 + MAX_OPTIONS) {
        return None;
      }
      if |texts[0]| > MAX_QUESTION || exists o :: o in texts[1..] && |o| > MAX_OPTION {
        return None;
      }
      var n := |texts| - 1;
      NothingCast(n);
      return Some(Poll(texts[0], texts[1..], sealed, seq(n, _ => 0), map[], Lower(r.adminHash.value), false, None, t, t + ttl.value));
    }

    method ApiCreate(r: Request, t: nat) returns (resp: Response)
      requires r.Create? && Valid()
      modifies this
      ensures Valid()
      ensures View() == Creation(old(View()), r, t).board && resp == Creation(old(View()), r, t).resp
    {
      hide WellFormed, Blank, Sheets, Counted;
      var p := ReadCreate(r, t);
      if p.None? {
        return Fail(400);
      }
      SheetsUpdated(polls, r.id, p.value);
      if |polls| >= MAX_POLLS {
        return Fail(507);
      }
      if r.id in polls {
        return Fail(409);
      }
      created := created + 1;
      polls := polls[r.id := p.value];
      return Created(p.value.expiresAt);
    }

    /** True when a client may still address the poll. An open one that ran out goes. */
    method LivePoll(id: string, t: nat) returns (found: bool)
      requires Valid()
      modifies this
      ensures Valid()
      ensures found == Found(old(View()), id, t)
      ensures View() == if found then old(View()) else Missed(old(View()), id)
      ensures found ==> id in polls && polls == old(polls)
    {
      hide Counted, Sheets, ValidId;
      SheetsUpdated(polls, id, Poll("", [], true, [], map[], "", false, None, 0, 0));
      assert id in polls ==> Counted(polls[id]);
      if id in polls {
        ClosedAtClose(polls[id]);
      }
      if !ValidId(id) || id !in polls {
        return false;
      }
      if polls[id].closed || polls[id].expiresAt > t {
        return true;
      }
      polls := polls - {id};
      expired := expired + 1;
      return false;
    }

    method ApiPoll(id: string, t: nat, u: nat) returns (resp: Response)
      requires Valid()
      modifies this
      ensures Valid()
      ensures View() == Serve(hash, old(View()), Show(id), t, u).board && resp == Serve(hash, old(View()), Show(id), t, u).resp
    {
      hide Tally, Found, Missed, Sheets;
      var found := LivePoll(id, t);
      if !found {
        return Fail(404);
      }
      SheetsUpdated(polls, id, polls[id]);
      return State(PollJson(polls[id], u));
    }

    /** The ballot goes in, or leaves its old pile for the new one. */
    method Recounted(p: Poll, ballot: string, choice: nat) returns (q: Poll)
      requires Counted(p) && choice < |p.options|
      ensures Counted(q) && SheetOf(q) == SheetOf(p).(ballots := p.voters[ballot := choice])
    {
      hide Tally;
      TallyAfterVote(p.voters, |p.options|, ballot, choice);
      TallySize(p.voters, |p.options|);
      var counts := p.counts;
      if ballot in p.voters {
        counts := counts[p.voters[ballot] := counts[p.voters[ballot]] - 1];
      }
      counts := counts[choice := counts[choice] + 1];
      return p.(voters := p.voters[ballot := choice], counts := counts);
    }

    method ApiVote(id: string, voter: string, choice: Option<nat>, t: nat) returns (resp: Response, event: Event)
      requires Valid()
      modifies this
      ensures Valid()
      ensures View() == Voting(hash, old(View()), id, voter, choice, t).board
      ensures resp == Voting(hash, old(View()), id, voter, choice, t).resp
      ensures event == Voting(hash, old(View()), id, voter, choice, t).event
    {
      hide Tally, Found, Missed, Sheets, Counted;
      var found := LivePoll(id, t);
      if !found {
        return Fail(404), NoEvent;
      }
      SheetsUpdated(polls, id, polls[id]);
      ClosedAtClose(polls[id]);
      if !(16 <= |voter| <= 64) {
        return Fail(400), NoEvent;
      }
      var p := polls[id];
      if p.closed {
        return Fail(409), NoEvent;
      }
      if choice.None? || choice.value >= |p.options| {
        return Fail(400), NoEvent;
      }
      var ballot := hash(voter);
      if ballot !in p.voters && |p.voters| >= MAX_VOTERS {
        return Fail(507), NoEvent;
      }
      p := Recounted(p, ballot, choice.value);
      ClosedAtClose(p);
      SheetsUpdated(polls, id, p);
      polls := polls[id := p];
      votesCast := votesCast + 1;
      var shown := if p.sealed then None else Some(p.counts);
      return Voted(|p.voters|, shown), Moved(id, |p.voters|, shown);
    }

    method Shut(p: Poll, u: nat) returns (q: Poll)
      requires Counted(p)
      ensures Counted(q) && SheetOf(q) == SheetOf(p).(closedAt := Some(u))
    {
      hide Tally;
      return p.(closed := true, closedAt := Some(u));
    }

    method ApiClose(id: string, token: string, t: nat, u: nat) returns (resp: Response, event: Event)
      requires Valid()
      modifies this
      ensures Valid()
      ensures View() == Closing(hash, old(View()), id, token, t, u).board
      ensures resp == Closing(hash, old(View()), id, token, t, u).resp
      ensures event == Closing(hash, old(View()), id, token, t, u).event
    {
      hide Tally, Found, Missed, Sheets, Counted;
      var found := LivePoll(id, t);
      if !found {
        return Fail(404), NoEvent;
      }
      var p := polls[id];
      SheetsUpdated(polls, id, p);
      ClosedAtClose(p);
      if token == "" || hash(token) != p.admin {
        return Fail(403), NoEvent;
      }
      event := NoEvent;
      if !p.closed {
        p := Shut(p, u);
        ClosedAtClose(p);
        SheetsUpdated(polls, id, p);
        polls := polls[id := p];
        closed := closed + 1;
        event := Event.Ended(id, |p.voters|, p.counts);
      }
      return Tallied(p.counts), event;
    }

    /** The ballots held: the sizes of all the voter maps, added up in any order. */
    method CountBallots() returns (n: nat)
      ensures n == |Cast(View().polls)|
    {
      var left := polls.Keys;
      n := 0;
      ghost var done: map<string, Sheet> := map[];
      while left != {}
        invariant left <= polls.Keys
        invariant done == map id | id in polls && id !in left :: SheetOf(polls[id])
        invariant n == |Cast(done)|
      {
        var id :| id in left;
        CastGrows(done, id, SheetOf(polls[id]));
        done := done[id := SheetOf(polls[id])];
        n := n + |polls[id].voters|;
        left := left - {id};
      }
      assert done == View().polls;
    }

    method Stats() returns (resp: Response)
      ensures resp == Serve(hash, View(), Ballots.Stats, 0, 0).resp
    {
      SheetsUpdated(polls, "", Poll("", [], true, [], map[], "", false, None, 0, 0));
      var n := CountBallots();
      return Totals(|polls|, n, created, votesCast);
    }

    /** `retain` over the polls in any order, counting those that lapsed. */
    method Retain(t: nat) returns (kept: map<string, Poll>, lapsed: nat)
      ensures kept == KeptOf(polls, t)
      ensures lapsed == |Lapsed(View(), t)|
    {
      hide Sheets, KeptOf, LapsedOf, Lapsed, Kept;
      var left := polls.Keys;
      ghost var done: map<string, Poll> := map[];
      kept, lapsed := map[], 0;
      RetainNothing(t);
      while left != {}
        invariant left <= polls.Keys
        invariant done == map id | id in polls && id !in left :: polls[id]
        invariant kept == KeptOf(done, t)
        invariant lapsed == |LapsedOf(done, t)|
      {
        var id :| id in left;
        var keep, lapses := Keeps(polls[id], t);
        RetainNext(done, id, polls[id], t);
        if lapses {
          lapsed := lapsed + 1;
        }
        if keep {
          kept := kept[id := polls[id]];
        }
        done := done[id := polls[id]];
        left := left - {id};
      }
      assert done == polls;
      LapsedPolls(polls, View(), t);
    }

    method Keeps(p: Poll, t: nat) returns (keep: bool, lapses: bool)
      ensures keep == Kept(SheetOf(p), t)
      ensures lapses <==> p.closedAt.None? && p.expiresAt <= t
    {
      match p.closedAt
      case Some(c) => return c + CLOSED_LINGER > t, false;
      case None =>
        keep := p.expiresAt > t;
        return keep, !keep;
    }

    /** The half-minute sweep. */
    method SweepPolls(t: nat) returns (resp: Response)
      requires Valid()
      modifies this
      ensures Valid()
      ensures View() == Sweeping(old(View()), t).board && resp == Sweeping(old(View()), t).resp
    {
      hide Tally, Counted, Sheets, Lapsed, Cast;
      var kept, lapsed := Retain(t);
      KeptSheets(polls, t);
      polls := kept;
      expired := expired + lapsed;
      SheetsUpdated(polls, "", Poll("", [], true, [], map[], "", false, None, 0, 0));
      var n := CountBallots();
      return Heartbeat(|polls|, n, created, votesCast, closed, expired);
    }

    /** `route` and the sweep: the server does what `Serve` says, request by request. */
    method Route(r: Request, t: nat, u: nat) returns (resp: Response, event: Event)
      requires Valid()
      modifies this
      ensures Valid()
      ensures Turn(View(), resp, event) == Serve(hash, old(View()), r, t, u)
    {
      hide Tally, Counted, Cast, Lapsed, Found, Sheets, Missed;
      event := NoEvent;
      match r
      case Create(_, _, _, _, _) => resp := ApiCreate(r, t);
      case Show(id) => resp := ApiPoll(id, t, u);
      case Watch(id) => resp := ApiPoll(id, t, u);
      case Vote(id, voter, choice) => resp, event := ApiVote(id, voter, choice, t);
      case Close(id, token) => resp, event := ApiClose(id, token, t, u);
      case Stats => resp := Stats();
      case Sweep => resp := SweepPolls(t);
    }
  }

  function KeptOf(polls: map<string, Poll>, t: nat): map<string, Poll> {
    map id | id in polls && Kept(SheetOf(polls[id]), t) :: polls[id]
  }

  function LapsedOf(polls: map<string, Poll>, t: nat): set<string> {
    set id | id in polls && polls[id].closedAt.None? && polls[id].expiresAt <= t
  }

  lemma RetainNothing(t: nat)
    ensures KeptOf(map[], t) == map[] && LapsedOf(map[], t) == {}
  {
  }

  lemma RetainNext(polls: map<string, Poll>, id: string, p: Poll, t: nat)
    requires id !in polls
    ensures Kept(SheetOf(p), t) ==> KeptOf(polls[id := p], t) == KeptOf(polls, t)[id := p]
    ensures !Kept(SheetOf(p), t) ==> KeptOf(polls[id := p], t) == KeptOf(polls, t)
    ensures |LapsedOf(polls[id := p], t)| == |LapsedOf(polls, t)| + (if p.closedAt.None? && p.expiresAt <= t then 1 else 0)
  {
    hide Kept, SheetOf, LapsedOf;
    LapsedNext(polls, id, p, t);
  }

  lemma LapsedNext(polls: map<string, Poll>, id: string, p: Poll, t: nat)
    requires id !in polls
    ensures |LapsedOf(polls[id := p], t)| == |LapsedOf(polls, t)| + (if p.closedAt.None? && p.expiresAt <= t then 1 else 0)
  {
    assert LapsedOf(polls[id := p], t) - {id} == LapsedOf(polls, t);
    assert id in LapsedOf(polls[id := p], t) <==> p.closedAt.None? && p.expiresAt <= t;
    hide *;
    SizeWithout(LapsedOf(polls[id := p], t), id);
  }

  lemma LapsedPolls(polls: map<string, Poll>, s: Board, t: nat)
    requires s.polls == Sheets(polls)
    ensures Lapsed(s, t) == LapsedOf(polls, t)
  {
  }

  lemma KeptSheets(polls: map<string, Poll>, t: nat)
    ensures Sheets(KeptOf(polls, t)) == map id | id in Sheets(polls) && Kept(Sheets(polls)[id], t) :: Sheets(polls)[id]
  {
  }

  lemma TextsSize(lines: seq<Option<string>>)
    requires Readable(lines)
    ensures |Texts(lines)| == |lines|
  {
  }

  lemma TallySize(ballots: map<string, nat>, n: nat)
    ensures |Tally(ballots, n)| == n
  {
  }

  lemma NothingCast(n: nat)
    ensures Tally(map[], n) == seq(n, _ => 0)
  {
    assert forall c: nat :: Pile(map[], c) == {};
  }

  lemma CastGrows(polls: map<string, Sheet>, id: string, p: Sheet)
    requires id !in polls
    ensures |Cast(polls[id := p])| == |Cast(polls)| + |p.ballots|
  {
    var mine := set v | v in p.ballots :: (id, v);
    CastWith(polls, id, p, mine);
    hide *;
    PairsAreAsMany(id, p.ballots.Keys, mine);
    assert |p.ballots| == |p.ballots.Keys|;
  }

  lemma CastWith(polls: map<string, Sheet>, id: string, p: Sheet, mine: set<(string, string)>)
    requires id !in polls && mine == set v | v in p.ballots :: (id, v)
    ensures Cast(polls[id := p]) == Cast(polls) + mine && Cast(polls) !! mine
  {
    forall x | x in Cast(polls[id := p]) ensures x in Cast(polls) + mine {}
    forall x | x in Cast(polls) + mine ensures x in Cast(polls[id := p]) {
      assert x.0 in polls[id := p] && x.1 in polls[id := p][x.0].ballots;
    }
  }

  lemma {:induction false} PairsAreAsMany(id: string, vs: set<string>, pairs: set<(string, string)>)
    requires pairs == set v | v in vs :: (id, v)
    ensures |pairs| == |vs|
    decreases vs
  {
    if vs != {} {
      var v :| v in vs;
      assert pairs - {(id, v)} == set w | w in vs - {v} :: (id, w);
      assert (id, v) in pairs;
      PairsAreAsMany(id, vs - {v}, pairs - {(id, v)});
    }
  }
}
