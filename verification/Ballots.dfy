/** ballot/src/main.rs: what a ballot server has to do, on plain values. A sheet keeps only who
    voted for what; there is no running count to go wrong. */
module Ballots {
  import opened Ascii
  import opened Common

  const MAX_POLLS := 5000
  const MAX_VOTERS := 50000
  const MAX_QUESTION := 280
  const MAX_OPTION := 120
  const MIN_OPTIONS := 2
  const MAX_OPTIONS := 12
  const MIN_TTL := 3600
  const MAX_TTL := 30 * 24 * 3600
  const DEFAULT_TTL := 7 * 24 * 3600
  const CLOSED_LINGER := 48 * 3600

  type Hash = string -> string

  datatype Sheet = Sheet(
    question: string, options: seq<string>, sealed: bool, ballots: map<string, nat>,
    admin: string, closedAt: Option<nat>, expiresAt: nat)

  datatype Board = Board(polls: map<string, Sheet>, created: nat, votesCast: nat, closed: nat, expired: nat)

  /** A request after its form, headers and lines are taken apart: `ttl` is an absent header,
      or one that is a number or not; a line of the body is None when it does not decode. */
  datatype Request =
    | Create(id: string, adminHash: Option<string>, mode: Option<string>, ttl: Option<Option<nat>>, lines: Option<seq<Option<string>>>)
    | Show(id: string)
    | Watch(id: string)
    | Vote(id: string, voter: string, choice: Option<nat>)
    | Close(id: string, token: string)
    | Stats
    | Sweep

  datatype PollState = PollState(
    question: string, options: seq<string>, sealed: bool, closed: bool, total: nat, expiresIn: nat, counts: Option<seq<nat>>)

  datatype Response =
    | Fail(code: nat)
    | Created(expiresAt: nat)
    | State(state: PollState)
    | Voted(total: nat, counts: Option<seq<nat>>)
    | Tallied(tally: seq<nat>)
    | Totals(polls: nat, ballots: nat, created: nat, votes: nat)
    | Heartbeat(polls: nat, ballots: nat, created: nat, votes: nat, closed: nat, expired: nat)

  /** What everyone subscribed to a poll is sent. */
  datatype Event = NoEvent | Moved(topic: string, total: nat, counts: Option<seq<nat>>) | Ended(topic: string, total: nat, tally: seq<nat>)

  datatype Turn = Turn(board: Board, resp: Response, event: Event)

  predicate ValidId(id: string) {
    8 <= |id| <= 16 && forall c :: c in id ==> 'a' <= c <= 'z' || '0' <= c <= '9'
  }

  // --- the tally ------------------------------------------------------------------------

  function Pile(ballots: map<string, nat>, c: nat): set<string> {
    set v | v in ballots && ballots[v] == c
  }

  /** The recount: for each option, the ballots that name it. */
  function Tally(ballots: map<string, nat>, n: nat): seq<nat> {
    seq(n, c requires 0 <= c < n => |Pile(ballots, c)|)
  }

  predicate Shown(p: Sheet) {
    !p.sealed || p.closedAt.Some?
  }

  function StateOf(p: Sheet, u: nat): PollState {
    PollState(p.question, p.options, p.sealed, p.closedAt.Some?, |p.ballots|, if p.expiresAt > u then p.expiresAt - u else 0,
              if Shown(p) then Some(Tally(p.ballots, |p.options|)) else None)
  }

  // --- the requests ---------------------------------------------------------------------

  predicate Addressable(p: Sheet, t: nat) {
    p.closedAt.Some? || p.expiresAt > t
  }

  predicate Found(s: Board, id: string, t: nat) {
    ValidId(id) && id in s.polls && Addressable(s.polls[id], t)
  }

  /** An open poll that ran out is dropped by the first request that names it. */
  function Missed(s: Board, id: string): Board {
    if ValidId(id) && id in s.polls then s.(polls := s.polls - {id}, expired := s.expired + 1) else s
  }

  function Gone(s: Board, id: string): Turn {
    Turn(Missed(s, id), Fail(404), NoEvent)
  }

  predicate Readable(lines: seq<Option<string>>) {
    forall l :: l in lines ==> l.Some? && l.value != ""
  }

  function Texts(lines: seq<Option<string>>): seq<string>
    requires Readable(lines)
  {
    seq(|lines|, i requires 0 <= i < |lines| => assert lines[i] in lines; lines[i].value)
  }

  function TtlOf(ttl: Option<Option<nat>>): Option<nat> {
    match ttl
    case None => Some(DEFAULT_TTL)
    case Some(None) => None
    case Some(Some(v)) => if MIN_TTL <= v <= MAX_TTL then Some(v) else None
  }

  /** The tests that answer 400, in the order of the source; none looks at the board. */
  predicate WellFormed(r: Request)
    requires r.Create?
  {
    && ValidId(r.id)
    && r.adminHash.Some? && HexHash(r.adminHash.value)
    && r.mode in {None, Some("sealed"), Some("live")}
    && TtlOf(r.ttl).Some?
    && r.lines.Some? && Readable(r.lines.value) && 1 + MIN_OPTIONS <= |r.lines.value| <= 1 + MAX_OPTIONS
    && |Texts(r.lines.value)[0]| <= MAX_QUESTION
    && forall o :: o in Texts(r.lines.value)[1..] ==> |o| <= MAX_OPTION
  }

  function Blank(r: Request, t: nat): Sheet
    requires r.Create? && WellFormed(r)
  {
    var texts := Texts(r.lines.value);
    Sheet(texts[0], texts[1..], r.mode != Some("live"), map[], Lower(r.adminHash.value), None, t + TtlOf(r.ttl).value)
  }

  function Creation(s: Board, r: Request, t: nat): Turn
    requires r.Create?
  {
    if !WellFormed(r) then Turn(s, Fail(400), NoEvent)
    else if |s.polls| >= MAX_POLLS then Turn(s, Fail(507), NoEvent)
    else if r.id in s.polls then Turn(s, Fail(409), NoEvent)
    else Turn(s.(polls := s.polls[r.id := Blank(r, t)], created := s.created + 1), Created(Blank(r, t).expiresAt), NoEvent)
  }

  function Voting(hash: Hash, s: Board, id: string, voter: string, choice: Option<nat>, t: nat): Turn {
    if !Found(s, id, t) then Gone(s, id)
    else
      var p := s.polls[id];
      if !(16 <= |voter| <= 64) then Turn(s, Fail(400), NoEvent)
      else if p.closedAt.Some? then Turn(s, Fail(409), NoEvent)
      else if choice.None? || choice.value >= |p.options| then Turn(s, Fail(400), NoEvent)
      else if hash(voter) !in p.ballots && |p.ballots| >= MAX_VOTERS then Turn(s, Fail(507), NoEvent)
      else
        var q := p.(ballots := p.ballots[hash(voter) := choice.value]);
        var counts := if p.sealed then None else Some(Tally(q.ballots, |q.options|));
        Turn(s.(polls := s.polls[id := q], votesCast := s.votesCast + 1),
             Voted(|q.ballots|, counts), Moved(id, |q.ballots|, counts))
  }

  predicate Opens(hash: Hash, p: Sheet, token: string) {
    token != "" && hash(token) == p.admin
  }

  function Closing(hash: Hash, s: Board, id: string, token: string, t: nat, u: nat): Turn {
    if !Found(s, id, t) then Gone(s, id)
    else
      var p := s.polls[id];
      if !Opens(hash, p, token) then Turn(s, Fail(403), NoEvent)
      else
        var counts := Tally(p.ballots, |p.options|);
        if p.closedAt.Some? then Turn(s, Tallied(counts), NoEvent)
        else Turn(s.(polls := s.polls[id := p.(closedAt := Some(u))], closed := s.closed + 1),
                  Tallied(counts), Ended(id, |p.ballots|, counts))
  }

  predicate Kept(p: Sheet, t: nat) {
    match p.closedAt
    case Some(c) => c + CLOSED_LINGER > t
    case None => p.expiresAt > t
  }

  function Lapsed(s: Board, t: nat): set<string> {
    set id | id in s.polls && s.polls[id].closedAt.None? && s.polls[id].expiresAt <= t
  }

  /** Every ballot held, poll by poll. */
  function Cast(polls: map<string, Sheet>): set<(string, string)> {
    set id, v | id in polls && v in polls[id].ballots :: (id, v)
  }

  function Sweeping(s: Board, t: nat): Turn {
    var s' := s.(polls := map id | id in s.polls && Kept(s.polls[id], t) :: s.polls[id], expired := s.expired + |Lapsed(s, t)|);
    Turn(s', Heartbeat(|s'.polls|, |Cast(s'.polls)|, s'.created, s'.votesCast, s'.closed, s'.expired), NoEvent)
  }

  /** One request. `t` is the clock when the poll is looked up, `u` when the handler reads it
      again. */
  function Serve(hash: Hash, s: Board, r: Request, t: nat, u: nat): Turn {
    match r
    case Create(_, _, _, _, _) => Creation(s, r, t)
    case Show(id) => if Found(s, id, t) then Turn(s, State(StateOf(s.polls[id], u)), NoEvent) else Gone(s, id)
    case Watch(id) => if Found(s, id, t) then Turn(s, State(StateOf(s.polls[id], u)), NoEvent) else Gone(s, id)
    case Vote(id, voter, choice) => Voting(hash, s, id, voter, choice, t)
    case Close(id, token) => Closing(hash, s, id, token, t, u)
    case Stats => Turn(s, Totals(|s.polls|, |Cast(s.polls)|, s.created, s.votesCast), NoEvent)
    case Sweep => Sweeping(s, t)
  }

  // --- whole histories ------------------------------------------------------------------

  datatype Moment = Moment(r: Request, t: nat, u: nat)

  function After(hash: Hash, s: Board, h: seq<Moment>): Board
    decreases |h|
  {
    if h == [] then s else After(hash, Serve(hash, s, h[0].r, h[0].t, h[0].u).board, h[1..])
  }

  /** All that anyone outside gets to see of a history: answers, events and totals. */
  function Seen(hash: Hash, s: Board, h: seq<Moment>): seq<(Response, Event)>
    decreases |h|
  {
    if h == [] then []
    else
      var turn := Serve(hash, s, h[0].r, h[0].t, h[0].u);
      [(turn.resp, turn.event)] + Seen(hash, turn.board, h[1..])
  }

  const EMPTY := Board(map[], 0, 0, 0, 0)
}
