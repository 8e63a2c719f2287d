/** What ballot tells, held against nothing but what it was asked and how it answered: the log of a
    poll's creation, votes and close says what every later answer about it has to be. */
module BallotRecords {
  import opened Ascii
  import opened Common
  import opened Ballots

  /** What the log says of the poll last made under an id. `late` is that a clock has run out on it. */
  datatype Record = Record(asked: Request, expires: nat, votes: map<string, nat>, closed: Option<nat>, late: bool)

  type Log = seq<(Moment, Response)>

  predicate Makes(m: Moment, resp: Response, id: string) {
    m.r.Create? && m.r.id == id && resp.Created?
  }

  predicate RunsOut(r: Record, m: Moment) {
    if r.closed.None? then m.t >= r.expires else m.r.Sweep? && m.t >= r.closed.value + CLOSED_LINGER
  }

  function Noted(hash: Hash, r: Record, m: Moment, resp: Response, id: string): Record {
    var late := r.late || RunsOut(r, m);
    if m.r.Vote? && m.r.id == id && resp.Voted? && m.r.choice.Some? then
      r.(votes := r.votes[hash(m.r.voter) := m.r.choice.value], late := late)
    else if m.r.Close? && m.r.id == id && resp.Tallied? && r.closed.None? then r.(closed := Some(m.u), late := late)
    else r.(late := late)
  }

  function RecordOf(hash: Hash, log: Log, id: string): Option<Record> {
    if log == [] then None
    else
      var (m, resp) := log[|log| - 1];
      if Makes(m, resp, id) then Some(Record(m.r, resp.expiresAt, map[], None, false))
      else
        match RecordOf(hash, log[..|log| - 1], id)
        case None => None
        case Some(r) => Some(Noted(hash, r, m, resp, id))
  }

  // --- what an answer has to be -----------------------------------------------------------

  predicate IsLive(r: Record) {
    r.asked.Create? && r.asked.mode == Some("live")
  }

  /** The lines a poll was made with: the question, then the options. */
  predicate AskedFor(r: Record, question: string, options: seq<string>) {
    && r.asked.Create? && r.asked.lines.Some? && |r.asked.lines.value| == |options| + 1
    && r.asked.lines.value[0] == Some(question)
    && forall i :: 0 <= i < |options| ==> r.asked.lines.value[i + 1] == Some(options[i])
  }

  /** How many voted for each option. */
  ghost predicate Counts(votes: map<string, nat>, n: int, counts: seq<nat>) {
    |counts| == n && forall c :: 0 <= c < n ==> counts[c] == |set v | v in votes && votes[v] == c|
  }

  predicate OpenedBy(hash: Hash, r: Record, token: string) {
    token != "" && r.asked.Create? && r.asked.adminHash.Some? && hash(token) == Lower(r.asked.adminHash.value)
  }

  predicate MayName(id: string) {
    8 <= |id| <= 16 && forall i :: 0 <= i < |id| ==> 'a' <= id[i] <= 'z' || '0' <= id[i] <= '9'
  }

  predicate MayList(lines: seq<Option<string>>) {
    forall i :: 0 <= i < |lines| ==> lines[i].Some? && 0 < |lines[i].value| <= if i == 0 then 280 else 120
  }

  /** What may be asked for: a question and two to twelve options, open an hour to thirty days. */
  predicate MayAsk(r: Request)
    requires r.Create?
  {
    && MayName(r.id)
    && (r.mode.None? || r.mode.value == "live" || r.mode.value == "sealed")
    && r.adminHash.Some? && HexHash(r.adminHash.value)
    && r.lines.Some? && 3 <= |r.lines.value| <= 13 && MayList(r.lines.value)
    && (r.ttl.None? || (r.ttl.value.Some? && 3600 <= r.ttl.value.value <= 2_592_000))
  }

  /** A poll runs as long as it was asked to, or a week. */
  predicate RunsFor(m: Moment, expires: nat)
    requires m.r.Create?
  {
    expires == m.t + if m.r.ttl.Some? && m.r.ttl.value.Some? then m.r.ttl.value.value else 604_800
  }

  ghost predicate TellsState(r: Record, m: Moment, st: PollState) {
    && AskedFor(r, st.question, st.options) && (r.closed.Some? || m.t < r.expires)
    && st.sealed == !IsLive(r) && st.closed == r.closed.Some? && st.total == |r.votes|
    && st.expiresIn as int == (if r.expires > m.u then r.expires - m.u else 0)
    && (st.counts.Some? <==> IsLive(r) || r.closed.Some?)
    && (st.counts.Some? ==> Counts(r.votes, |st.options|, st.counts.value))
  }

  /** A vote taken, given the record that has it. */
  ghost predicate TellsVote(r: Record, m: Moment, resp: Response, event: Event)
    requires m.r.Vote? && resp.Voted?
  {
    && r.closed.None? && m.t < r.expires && resp.total == |r.votes| && event == Moved(m.r.id, resp.total, resp.counts)
    && m.r.choice.Some? && r.asked.Create? && r.asked.lines.Some? && m.r.choice.value + 1 < |r.asked.lines.value|
    && (resp.counts.Some? <==> IsLive(r))
    && (resp.counts.Some? ==> Counts(r.votes, |r.asked.lines.value| - 1, resp.counts.value))
  }

  ghost predicate TellsTally(hash: Hash, r: Record, m: Moment, resp: Response, event: Event)
    requires m.r.Close? && resp.Tallied?
  {
    && OpenedBy(hash, r, m.r.token) && (r.closed.Some? || m.t < r.expires)
    && r.asked.Create? && r.asked.lines.Some? && Counts(r.votes, |r.asked.lines.value| - 1, resp.tally)
    && event == if r.closed.Some? then NoEvent else Ended(m.r.id, |r.votes|, resp.tally)
  }

  /** Within its time a poll answers. */
  predicate InTime(r: Option<Record>, m: Moment) {
    r.Some? && !r.value.late && (r.value.closed.None? ==> m.t < r.value.expires)
  }

  /** Why a vote may be refused. */
  ghost predicate MayRefuse(hash: Hash, r: Option<Record>, m: Moment, code: nat)
    requires m.r.Vote?
  {
    || (code == 404 && !InTime(r, m))
    || (code == 409 && r.Some? && r.value.closed.Some?)
    || (code == 400 && (|m.r.voter| < 16 || |m.r.voter| > 64 || m.r.choice.None?))
    || (code == 400 && r.Some? && r.value.asked.Create? && r.value.asked.lines.Some? && m.r.choice.Some?
        && m.r.choice.value + 1 >= |r.value.asked.lines.value|)
    || (code == 507 && r.Some? && hash(m.r.voter) !in r.value.votes && |r.value.votes| >= 50_000)
  }

  /** What the answer to one request has to be, the record of its poll being `r` before it. */
  ghost predicate Truthful(hash: Hash, r: Option<Record>, m: Moment, resp: Response, event: Event) {
    match m.r
    case Create(_, _, _, _, _) =>
      && event == NoEvent && (resp == Fail(400) <==> !MayAsk(m.r))
      && (resp.Created? ==> RunsFor(m, resp.expiresAt))
      && (resp.Created? || resp == Fail(400) || resp == Fail(507) || (resp == Fail(409) && r.Some?))
    case Show(id) =>
      event == NoEvent && (if resp.State? then r.Some? && TellsState(r.value, m, resp.state) else resp == Fail(404) && !InTime(r, m))
    case Watch(id) =>
      event == NoEvent && (if resp.State? then r.Some? && TellsState(r.value, m, resp.state) else resp == Fail(404) && !InTime(r, m))
    case Vote(id, voter, choice) =>
      if resp.Voted? then r.Some? && TellsVote(Noted(hash, r.value, m, resp, id), m, resp, event)
      else event == NoEvent && resp.Fail? && MayRefuse(hash, r, m, resp.code)
    case Close(id, token) =>
      if resp.Tallied? then r.Some? && TellsTally(hash, r.value, m, resp, event)
      else
        && event == NoEvent && (resp == Fail(404) || resp == Fail(403))
        && (resp == Fail(404) ==> !InTime(r, m))
        && (resp == Fail(403) ==> r.Some? && !OpenedBy(hash, r.value, token))
    case Stats => event == NoEvent && resp.Totals?
    case Sweep => event == NoEvent && resp.Heartbeat?
  }

  function TopicOf(r: Request): string {
    match r
    case Create(id, _, _, _, _) => id
    case Show(id) => id
    case Watch(id) => id
    case Vote(id, _, _) => id
    case Close(id, _) => id
    case Stats => ""
    case Sweep => ""
  }

  // --- the board and the log --------------------------------------------------------------

  ghost predicate Fits(r: Record, p: Sheet) {
    && AskedFor(r, p.question, p.options) && p.sealed == !IsLive(r)
    && r.asked.Create? && r.asked.adminHash.Some? && p.admin == Lower(r.asked.adminHash.value)
    && p.ballots == r.votes && p.closedAt == r.closed && p.expiresAt == r.expires
  }

  /** A poll held is as its record says, and one whose time has not run out is held. */
  ghost predicate Recorded(hash: Hash, s: Board, log: Log, id: string) {
    var r := RecordOf(hash, log, id);
    && (id in s.polls ==> r.Some? && Fits(r.value, s.polls[id]))
    && (r.Some? && !r.value.late ==> id in s.polls && ValidId(id))
  }

  lemma LogNext(hash: Hash, log: Log, m: Moment, resp: Response, id: string)
    ensures RecordOf(hash, log + [(m, resp)], id)
         == if Makes(m, resp, id) then Some(Record(m.r, resp.expiresAt, map[], None, false))
            else match RecordOf(hash, log, id) case None => None case Some(r) => Some(Noted(hash, r, m, resp, id))
  {
    assert (log + [(m, resp)])[..|log|] == log;
  }

  lemma TallyCounts(votes: map<string, nat>, n: nat)
    ensures Counts(votes, n, Tally(votes, n))
  {
  }

  lemma LooksTruthful(hash: Hash, s: Board, log: Log, m: Moment, id: string)
    requires Recorded(hash, s, log, id) && (m.r == Show(id) || m.r == Watch(id))
    ensures var turn := Serve(hash, s, m.r, m.t, m.u); Truthful(hash, RecordOf(hash, log, id), m, turn.resp, turn.event)
  {
    hide RecordOf, Tally;
    if Found(s, id, m.t) {
      var p := s.polls[id];
      TallyCounts(p.ballots, |p.options|);
    }
  }

  lemma VoteIsTruthful(hash: Hash, s: Board, log: Log, m: Moment)
    requires m.r.Vote? && Recorded(hash, s, log, m.r.id)
    ensures var turn := Serve(hash, s, m.r, m.t, m.u); Truthful(hash, RecordOf(hash, log, m.r.id), m, turn.resp, turn.event)
  {
    hide RecordOf, Tally;
    var id := m.r.id;
    if Found(s, id, m.t) && m.r.choice.Some? {
      var p := s.polls[id];
      TallyCounts(p.ballots[hash(m.r.voter) := m.r.choice.value], |p.options|);
    }
  }

  lemma CloseIsTruthful(hash: Hash, s: Board, log: Log, m: Moment)
    requires m.r.Close? && Recorded(hash, s, log, m.r.id)
    ensures var turn := Serve(hash, s, m.r, m.t, m.u); Truthful(hash, RecordOf(hash, log, m.r.id), m, turn.resp, turn.event)
  {
    hide RecordOf, Tally;
    if Found(s, m.r.id, m.t) {
      var p := s.polls[m.r.id];
      TallyCounts(p.ballots, |p.options|);
    }
  }

  lemma CreationIsTruthful(hash: Hash, s: Board, m: Moment, r: Option<Record>)
    requires m.r.Create? && (m.r.id in s.polls ==> r.Some?)
    ensures var turn := Serve(hash, s, m.r, m.t, m.u); Truthful(hash, r, m, turn.resp, turn.event)
  {
    FormIff(m.r);
    hide WellFormed, MayAsk;
    if WellFormed(m.r) {
      RunsAsAsked(m.r);
    }
  }

  lemma RunsAsAsked(r: Request)
    requires r.Create? && WellFormed(r)
    ensures TtlOf(r.ttl).Some? && TtlOf(r.ttl).value == if r.ttl.Some? && r.ttl.value.Some? then r.ttl.value.value else 604_800
  {
  }

  lemma FormIff(r: Request)
    requires r.Create?
    ensures WellFormed(r) <==> MayAsk(r)
  {
    NameIff(r.id);
    if r.lines.Some? {
      LinesIff(r.lines.value);
    }
    hide HexHash, ValidId, MayName, MayList, Readable, Texts;
  }

  lemma NameIff(id: string)
    ensures ValidId(id) <==> MayName(id)
  {
    assert forall i :: 0 <= i < |id| ==> id[i] in id;
  }

  lemma LinesIff(lines: seq<Option<string>>)
    ensures Readable(lines) && lines != [] && |Texts(lines)[0]| <= MAX_QUESTION && (forall o :: o in Texts(lines)[1..] ==> |o| <= MAX_OPTION)
       <==> lines != [] && MayList(lines)
  {
    if Readable(lines) && lines != [] {
      var options := Texts(lines)[1..];
      forall i | 0 < i < |lines| ensures options[i - 1] == lines[i].value && options[i - 1] in options && lines[i] in lines {
        assert lines[i] in lines;
      }
      assert lines[0] in lines;
    }
    if lines != [] && MayList(lines) {
      assert Readable(lines);
      forall o | o in Texts(lines)[1..] ensures |o| <= MAX_OPTION {
        var i :| 0 <= i < |Texts(lines)[1..]| && Texts(lines)[1..][i] == o;
        assert o == lines[i + 1].value;
      }
    }
  }

  lemma StepIsTruthful(hash: Hash, s: Board, log: Log, m: Moment)
    requires forall id :: Recorded(hash, s, log, id)
    ensures var turn := Serve(hash, s, m.r, m.t, m.u); Truthful(hash, RecordOf(hash, log, TopicOf(m.r)), m, turn.resp, turn.event)
  {
    hide RecordOf, Fits, Serve, Truthful;
    var id := TopicOf(m.r);
    assert Recorded(hash, s, log, id);
    match m.r
    case Create(_, _, _, _, _) => CreationIsTruthful(hash, s, m, RecordOf(hash, log, id));
    case Show(_) => LooksTruthful(hash, s, log, m, id);
    case Watch(_) => LooksTruthful(hash, s, log, m, id);
    case Vote(_, _, _) => VoteIsTruthful(hash, s, log, m);
    case Close(_, _) => CloseIsTruthful(hash, s, log, m);
    case Stats => OthersAreTruthful(hash, s, m, RecordOf(hash, log, id));
    case Sweep => OthersAreTruthful(hash, s, m, RecordOf(hash, log, id));
  }

  lemma OthersAreTruthful(hash: Hash, s: Board, m: Moment, r: Option<Record>)
    requires m.r.Stats? || m.r.Sweep?
    ensures var turn := Serve(hash, s, m.r, m.t, m.u); Truthful(hash, r, m, turn.resp, turn.event)
  {
  }

  // --- one request keeps the record -------------------------------------------------------

  lemma MadeFits(hash: Hash, s: Board, m: Moment, log: Log)
    requires m.r.Create?
    ensures var turn := Serve(hash, s, m.r, m.t, m.u);
            turn.resp.Created? ==> Recorded(hash, turn.board, log + [(m, turn.resp)], m.r.id)
  {
    var turn := Serve(hash, s, m.r, m.t, m.u);
    if turn.resp.Created? {
      LogNext(hash, log, m, turn.resp, m.r.id);
      hide RecordOf, TtlOf;
      var lines, p := m.r.lines.value, turn.board.polls[m.r.id];
      forall i | 0 <= i < |p.options| ensures lines[i + 1] == Some(p.options[i]) {
        assert lines[i + 1] in lines && Texts(lines)[1..][i] == lines[i + 1].value;
      }
      assert lines[0] in lines;
    }
  }

  /** What a request that is not the poll's creation does to it. */
  ghost predicate Passed(hash: Hash, s: Board, m: Moment, turn: Turn, id: string) {
    && (id in turn.board.polls ==> id in s.polls)
    && (id in turn.board.polls ==>
          turn.board.polls[id]
          == if m.r.Vote? && m.r.id == id && turn.resp.Voted? && m.r.choice.Some? then
               s.polls[id].(ballots := s.polls[id].ballots[hash(m.r.voter) := m.r.choice.value])
             else if m.r.Close? && m.r.id == id && turn.resp.Tallied? && s.polls[id].closedAt.None? then
               s.polls[id].(closedAt := Some(m.u))
             else s.polls[id])
    && (id in s.polls && id !in turn.board.polls && ValidId(id) ==>
          if s.polls[id].closedAt.None? then m.t >= s.polls[id].expiresAt
          else m.r.Sweep? && m.t >= s.polls[id].closedAt.value + CLOSED_LINGER)
  }

  lemma StepPasses(hash: Hash, s: Board, m: Moment, id: string)
    ensures var turn := Serve(hash, s, m.r, m.t, m.u); !Makes(m, turn.resp, id) ==> Passed(hash, s, m, turn, id)
  {
    if m.r.Create? {
      CreationPasses(hash, s, m, id);
    } else {
      OtherPasses(hash, s, m, id);
    }
  }

  lemma CreationPasses(hash: Hash, s: Board, m: Moment, id: string)
    requires m.r.Create?
    ensures var turn := Serve(hash, s, m.r, m.t, m.u); !Makes(m, turn.resp, id) ==> Passed(hash, s, m, turn, id)
  {
    hide Tally, Cast, Lapsed, WellFormed, Blank, ValidId;
  }

  lemma OtherPasses(hash: Hash, s: Board, m: Moment, id: string)
    requires !m.r.Create?
    ensures var turn := Serve(hash, s, m.r, m.t, m.u); !Makes(m, turn.resp, id) ==> Passed(hash, s, m, turn, id)
  {
    if m.r.Vote? {
      VotePasses(hash, s, m, id);
    } else if m.r.Close? {
      ClosePasses(hash, s, m, id);
    } else {
      LookPasses(hash, s, m, id);
    }
  }

  lemma VotePasses(hash: Hash, s: Board, m: Moment, id: string)
    requires m.r.Vote?
    ensures Passed(hash, s, m, Serve(hash, s, m.r, m.t, m.u), id)
  {
    hide Tally, Cast, Lapsed, ValidId, Closing, Sweeping, Creation, StateOf;
  }

  lemma ClosePasses(hash: Hash, s: Board, m: Moment, id: string)
    requires m.r.Close?
    ensures Passed(hash, s, m, Serve(hash, s, m.r, m.t, m.u), id)
  {
    hide Tally, Cast, Lapsed, ValidId, Voting, Sweeping, Creation, StateOf;
  }

  lemma LookPasses(hash: Hash, s: Board, m: Moment, id: string)
    requires !m.r.Create? && !m.r.Vote? && !m.r.Close?
    ensures Passed(hash, s, m, Serve(hash, s, m.r, m.t, m.u), id)
  {
    hide Tally, Cast, Lapsed, ValidId, Voting, Closing, Creation, StateOf;
  }

  lemma FitsOn(hash: Hash, r: Record, s: Board, m: Moment, turn: Turn, id: string)
    requires Passed(hash, s, m, turn, id) && id in turn.board.polls && id in s.polls && Fits(r, s.polls[id])
    ensures Fits(Noted(hash, r, m, turn.resp, id), turn.board.polls[id])
  {
  }

  lemma StepRecords(hash: Hash, s: Board, log: Log, m: Moment, id: string)
    requires Recorded(hash, s, log, id)
    ensures var turn := Serve(hash, s, m.r, m.t, m.u); Recorded(hash, turn.board, log + [(m, turn.resp)], id)
  {
    var turn := Serve(hash, s, m.r, m.t, m.u);
    if Makes(m, turn.resp, id) {
      MadeFits(hash, s, m, log);
    } else {
      LogNext(hash, log, m, turn.resp, id);
      StepPasses(hash, s, m, id);
      hide RecordOf, Serve, Fits;
      if id in turn.board.polls {
        FitsOn(hash, RecordOf(hash, log, id).value, s, m, turn, id);
      }
      if id in s.polls {
        FitsDates(RecordOf(hash, log, id).value, s.polls[id]);
      }
    }
  }

  lemma FitsDates(r: Record, p: Sheet)
    requires Fits(r, p)
    ensures p.closedAt == r.closed && p.expiresAt == r.expires
  {
  }

  // --- whole histories --------------------------------------------------------------------

  function LogOf(h: seq<Moment>, seen: seq<(Response, Event)>): (log: Log)
    requires |seen| == |h|
    ensures |log| == |h| && forall i :: 0 <= i < |h| ==> log[i] == (h[i], seen[i].0)
  {
    seq(|h|, i requires 0 <= i < |h| => (h[i], seen[i].0))
  }

  lemma {:induction false} HistoryIsTruthful(hash: Hash, s: Board, log: Log, h: seq<Moment>, k: nat)
    requires forall id :: Recorded(hash, s, log, id)
    requires k < |h|
    ensures |Seen(hash, s, h)| == |h|
    ensures var seen := Seen(hash, s, h);
            Truthful(hash, RecordOf(hash, log + LogOf(h, seen)[..k], TopicOf(h[k].r)), h[k], seen[k].0, seen[k].1)
    decreases |h|
  {
    hide RecordOf, Recorded, Serve, Truthful, LogOf;
    SeenLength(hash, s, h);
    var turn := Serve(hash, s, h[0].r, h[0].t, h[0].u);
    var seen := Seen(hash, s, h);
    if k == 0 {
      StepIsTruthful(hash, s, log, h[0]);
      assert log + LogOf(h, seen)[..0] == log;
    } else {
      LogSplits(h, seen, log, k);
      forall id ensures Recorded(hash, turn.board, log + [(h[0], turn.resp)], id) {
        StepRecords(hash, s, log, h[0], id);
      }
      HistoryIsTruthful(hash, turn.board, log + [(h[0], turn.resp)], h[1..], k - 1);
    }
  }

  lemma LogSplits(h: seq<Moment>, seen: seq<(Response, Event)>, log: Log, k: nat)
    requires |seen| == |h| && 0 < k < |h|
    ensures log + LogOf(h, seen)[..k] == log + [(h[0], seen[0].0)] + LogOf(h[1..], seen[1..])[..k - 1]
  {
    assert LogOf(h, seen)[..k] == [(h[0], seen[0].0)] + LogOf(h[1..], seen[1..])[..k - 1];
  }

  lemma {:induction false} SeenLength(hash: Hash, s: Board, h: seq<Moment>)
    ensures |Seen(hash, s, h)| == |h|
    decreases |h|
  {
    hide Serve;
    if h != [] {
      SeenLength(hash, Serve(hash, s, h[0].r, h[0].t, h[0].u).board, h[1..]);
    }
  }

  /** In any history of a server that begins empty, every answer and event is what the log before it
      says it has to be: a sealed poll shows no counts until it is closed and a live one always does,
      each count is of the voters' last choices, only the token the poll was made with closes it, and
      a poll is missing only once its time has run out. */
  lemma EveryAnswerIsTruthful(hash: Hash, h: seq<Moment>, k: nat)
    requires k < |h|
    ensures |Seen(hash, EMPTY, h)| == |h|
    ensures var seen := Seen(hash, EMPTY, h);
            Truthful(hash, RecordOf(hash, LogOf(h, seen)[..k], TopicOf(h[k].r)), h[k], seen[k].0, seen[k].1)
  {
    HistoryIsTruthful(hash, EMPTY, [], h, k);
    assert [] + LogOf(h, Seen(hash, EMPTY, h))[..k] == LogOf(h, Seen(hash, EMPTY, h))[..k];
  }

  // --- totals -----------------------------------------------------------------------------

  /** How many polls were made, votes taken and polls closed, by the answers and events. */
  function Counted(seen: seq<(Response, Event)>): (nat, nat, nat) {
    if seen == [] then (0, 0, 0)
    else
      var (made, votes, ends) := Counted(seen[..|seen| - 1]);
      var (resp, event) := seen[|seen| - 1];
      (made + if resp.Created? then 1 else 0, votes + if resp.Voted? then 1 else 0, ends + if event.Ended? then 1 else 0)
  }

  lemma {:induction false} TotalsFrom(hash: Hash, s: Board, h: seq<Moment>)
    ensures |Seen(hash, s, h)| == |h|
    ensures var (made, votes, ends) := Counted(Seen(hash, s, h));
            var s' := After(hash, s, h);
            s'.created == s.created + made && s'.votesCast == s.votesCast + votes && s'.closed == s.closed + ends
    decreases |h|
  {
    hide Serve;
    SeenLength(hash, s, h);
    if h != [] {
      var init, m := h[..|h| - 1], h[|h| - 1];
      TotalsFrom(hash, s, init);
      SeenLast(hash, s, init, m);
      assert h == init + [m];
      OneMore(hash, After(hash, s, init), m);
      var seen := Seen(hash, s, h);
      assert seen[..|seen| - 1] == Seen(hash, s, init);
    }
  }

  lemma OneMore(hash: Hash, s: Board, m: Moment)
    ensures var turn := Serve(hash, s, m.r, m.t, m.u);
            && turn.board.created == s.created + (if turn.resp.Created? then 1 else 0)
            && turn.board.votesCast == s.votesCast + (if turn.resp.Voted? then 1 else 0)
            && turn.board.closed == s.closed + (if turn.event.Ended? then 1 else 0)
  {
    hide Tally, Cast, Lapsed, WellFormed, Blank, Found;
  }

  lemma {:induction false} SeenLast(hash: Hash, s: Board, h: seq<Moment>, m: Moment)
    ensures var s' := After(hash, s, h);
            var turn := Serve(hash, s', m.r, m.t, m.u);
            Seen(hash, s, h + [m]) == Seen(hash, s, h) + [(turn.resp, turn.event)] && After(hash, s, h + [m]) == turn.board
    decreases |h|
  {
    hide Serve;
    if h == [] {
      assert h + [m] == [m] && [m][1..] == [];
      assert Seen(hash, Serve(hash, s, m.r, m.t, m.u).board, []) == [];
    } else {
      assert (h + [m])[1..] == h[1..] + [m] && (h + [m])[0] == h[0];
      SeenLast(hash, Serve(hash, s, h[0].r, h[0].t, h[0].u).board, h[1..], m);
    }
  }

  /** The totals told are those of the log. */
  lemma TotalsAreOfTheLog(hash: Hash, h: seq<Moment>, m: Moment)
    ensures var (made, votes, ends) := Counted(Seen(hash, EMPTY, h));
            var resp := Serve(hash, After(hash, EMPTY, h), m.r, m.t, m.u).resp;
            && (m.r.Stats? ==> resp.Totals? && resp.created == made && resp.votes == votes)
            && (m.r.Sweep? ==> resp.Heartbeat? && resp.created == made && resp.votes == votes && resp.closed == ends)
  {
    TotalsFrom(hash, EMPTY, h);
    hide Tally, Cast, Lapsed;
  }

  /** A poll that may be asked for is refused for want of room exactly if as many as may be are
      counted. */
  lemma FullIff(hash: Hash, s: Board, r: Request, t: nat, u: nat)
    requires r.Create? && MayAsk(r)
    ensures Serve(hash, s, r, t, u).resp == Fail(507) <==> Serve(hash, s, Stats, t, u).resp.polls >= 5000
    ensures Serve(hash, s, r, t, u).resp == Fail(409) ==> r.id in s.polls
  {
    FormIff(r);
    hide WellFormed, MayAsk, Blank;
  }
}
