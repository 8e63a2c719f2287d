/** What backchannel tells, held against nothing but what it was asked and how it answered: the log of
    a room's opening and messages says what every later answer about it has to be. */
module HallRecords {
  import opened Common
  import opened MapSum
  import opened Halls

  /** What the log says of the room last opened under an id: its messages, when it was last used, and
      whether a clock has run out on it. */
  datatype Record = Record(said: seq<Msg>, last: nat, late: bool)

  type Told = seq<(Moment, Response)>

  predicate Opens(m: Moment, resp: Response, id: string) {
    m.r.Open? && m.r.id == id && resp.Opened?
  }

  function Noted(r: Record, m: Moment, resp: Response, id: string): Record {
    var late := r.late || m.t > r.last + 7200;
    if m.r.Say? && m.r.id == id && resp.Said? then Record(r.said + [Msg(resp.n, resp.ts, m.r.blob)], m.u, late)
    else r.(late := late)
  }

  function RecordOf(told: Told, id: string): Option<Record> {
    if told == [] then None
    else
      var (m, resp) := told[|told| - 1];
      if Opens(m, resp, id) then Some(Record([], m.t, false))
      else
        match RecordOf(told[..|told| - 1], id)
        case None => None
        case Some(r) => Some(Noted(r, m, resp, id))
  }

  // --- what an answer has to be -----------------------------------------------------------

  predicate MayName(id: string) {
    10 <= |id| <= 16 && forall i :: 0 <= i < |id| ==> 'a' <= id[i] <= 'z' || '0' <= id[i] <= '9'
  }

  /** A message is text of at most 8 KiB in the alphabet of base64url. */
  predicate MaySay(blob: string) {
    0 < |blob| <= 8192
    && forall i :: 0 <= i < |blob| ==>
                     'a' <= blob[i] <= 'z' || 'A' <= blob[i] <= 'Z' || '0' <= blob[i] <= '9' || blob[i] == '-' || blob[i] == '_'
  }

  /** Used within two hours, a room answers. */
  predicate InTime(r: Option<Record>, m: Moment) {
    r.Some? && !r.value.late && m.t <= r.value.last + 7200
  }

  predicate LastOf(said: seq<Msg>, shown: seq<Msg>) {
    |shown| == (if |said| <= 200 then |said| else 200) && forall i :: 0 <= i < |shown| ==> shown[i] == said[|said| - |shown| + i]
  }

  /** What the answer to one request has to be, the record of its room being `r` before it. */
  ghost predicate Truthful(r: Option<Record>, m: Moment, resp: Response) {
    match m.r
    case Open(id) =>
      && (resp == Response.Opened || resp == Fail(400) || resp == Fail(507) || (resp == Fail(409) && r.Some?))
      && (resp == Fail(400) <==> !MayName(id))
    case Say(id, blob) =>
      if resp.Said? then r.Some? && m.t <= r.value.last + 7200 && MaySay(blob) && resp == Said(|r.value.said| + 1, m.u)
      else (resp == Fail(404) && !InTime(r, m)) || (resp == Fail(400) && !MaySay(blob)) || (resp == Fail(507) && MaySay(blob))
    case History(id) =>
      if resp.Shown? then r.Some? && m.t <= r.value.last + 7200 && resp.count == |r.value.said| && LastOf(r.value.said, resp.msgs)
      else resp == Fail(404) && !InTime(r, m)
    case Stats => resp.Totals?
    case Sweep => resp.Totals?
  }

  function RoomOf(r: Request): string {
    match r
    case Open(id) => id
    case Say(id, _) => id
    case History(id) => id
    case Stats => ""
    case Sweep => ""
  }

  // --- the hall and the log ---------------------------------------------------------------

  ghost predicate Recorded(h: Hall, told: Told, id: string) {
    var r := RecordOf(told, id);
    && (id in h.rooms ==> r.Some? && h.rooms[id] == Log(r.value.said, r.value.last))
    && (r.Some? && !r.value.late ==> id in h.rooms && ValidId(id))
  }

  lemma ToldNext(told: Told, m: Moment, resp: Response, id: string)
    ensures RecordOf(told + [(m, resp)], id)
         == if Opens(m, resp, id) then Some(Record([], m.t, false))
            else match RecordOf(told, id) case None => None case Some(r) => Some(Noted(r, m, resp, id))
  {
    assert (told + [(m, resp)])[..|told|] == told;
  }

  lemma NameIff(id: string)
    ensures ValidId(id) <==> MayName(id)
  {
    assert forall i :: 0 <= i < |id| ==> id[i] in id;
  }

  lemma BlobIff(blob: string)
    ensures ValidBlob(blob) <==> MaySay(blob)
  {
    assert forall i :: 0 <= i < |blob| ==> blob[i] in blob;
  }

  lemma StepIsTruthful(h: Hall, told: Told, m: Moment)
    requires forall id :: Recorded(h, told, id)
    ensures Truthful(RecordOf(told, RoomOf(m.r)), m, Serve(h, m.r, m.t, m.u).resp)
  {
    var id := RoomOf(m.r);
    assert Recorded(h, told, id);
    NameIff(id);
    if m.r.Say? {
      BlobIff(m.r.blob);
    }
    hide RecordOf, HeldBytes, MayName, MaySay, ValidId, ValidBlob;
  }

  /** What a request that does not open the room does to it. */
  ghost predicate Passed(h: Hall, m: Moment, turn: Turn, id: string) {
    && (id in turn.hall.rooms ==> id in h.rooms)
    && (id in turn.hall.rooms ==>
          turn.hall.rooms[id]
          == if m.r.Say? && m.r.id == id && turn.resp.Said? then
               Log(h.rooms[id].msgs + [Msg(turn.resp.n, turn.resp.ts, m.r.blob)], m.u)
             else h.rooms[id])
    && (id in h.rooms && id !in turn.hall.rooms && ValidId(id) ==> m.t > h.rooms[id].lastActivity + 7200)
  }

  lemma StepPasses(h: Hall, m: Moment, id: string)
    ensures var turn := Serve(h, m.r, m.t, m.u); !Opens(m, turn.resp, id) ==> Passed(h, m, turn, id)
  {
    hide HeldBytes, ValidBlob;
  }

  lemma StepRecords(h: Hall, told: Told, m: Moment, id: string)
    requires Recorded(h, told, id)
    ensures var turn := Serve(h, m.r, m.t, m.u); Recorded(turn.hall, told + [(m, turn.resp)], id)
  {
    var turn := Serve(h, m.r, m.t, m.u);
    ToldNext(told, m, turn.resp, id);
    if !Opens(m, turn.resp, id) {
      StepPasses(h, m, id);
      hide RecordOf, Serve;
    } else {
      hide RecordOf;
    }
  }

  // --- whole histories --------------------------------------------------------------------

  /** What is told, request by request. */
  ghost function ToldFrom(h: Hall, ms: seq<Moment>): (told: Told)
    ensures |told| == |ms|
  {
    if ms == [] then []
    else
      var init, m := ms[..|ms| - 1], ms[|ms| - 1];
      ToldFrom(h, init) + [(m, Serve(HallAt(h, init), m.r, m.t, m.u).resp)]
  }

  ghost function HallAt(h: Hall, ms: seq<Moment>): Hall {
    if ms == [] then h
    else
      var m := ms[|ms| - 1];
      Serve(HallAt(h, ms[..|ms| - 1]), m.r, m.t, m.u).hall
  }

  lemma {:induction false} AllRecorded(ms: seq<Moment>, id: string)
    ensures Recorded(HallAt(EMPTY, ms), ToldFrom(EMPTY, ms), id)
  {
    hide Serve, RecordOf, Recorded;
    if ms == [] {
      NothingRecorded(id);
    } else {
      AllRecorded(ms[..|ms| - 1], id);
      StepRecords(HallAt(EMPTY, ms[..|ms| - 1]), ToldFrom(EMPTY, ms[..|ms| - 1]), ms[|ms| - 1], id);
    }
  }

  lemma NothingRecorded(id: string)
    ensures Recorded(EMPTY, [], id)
  {
  }

  /** In any history of a server that begins empty, every answer is what the log before it says it
      has to be: a room shows the last two hundred of the messages it took, as they were sent, with
      their numbers and times, and is missing only once it was left alone for two hours. */
  lemma EveryAnswerIsTruthful(ms: seq<Moment>, m: Moment)
    ensures Truthful(RecordOf(ToldFrom(EMPTY, ms), RoomOf(m.r)), m, Serve(HallAt(EMPTY, ms), m.r, m.t, m.u).resp)
  {
    forall id ensures Recorded(HallAt(EMPTY, ms), ToldFrom(EMPTY, ms), id) {
      AllRecorded(ms, id);
    }
    hide HallAt, ToldFrom, Recorded, RecordOf, Truthful, Serve;
    StepIsTruthful(HallAt(EMPTY, ms), ToldFrom(EMPTY, ms), m);
  }

  /** These are the halls of `Halls`. */
  lemma {:induction false} HallAtIsAfter(h: Hall, ms: seq<Moment>)
    ensures HallAt(h, ms) == After(h, ms)
  {
    hide Serve;
    if ms != [] {
      HallAtIsAfter(h, ms[..|ms| - 1]);
      AfterLast(h, ms[..|ms| - 1], ms[|ms| - 1]);
      assert ms == ms[..|ms| - 1] + [ms[|ms| - 1]];
    }
  }

  lemma {:induction false} AfterLast(h: Hall, ms: seq<Moment>, m: Moment)
    ensures After(h, ms + [m]) == Serve(After(h, ms), m.r, m.t, m.u).hall
    decreases |ms|
  {
    hide Serve;
    if ms == [] {
      assert ms + [m] == [m] && [m][1..] == [];
      assert After(Serve(h, m.r, m.t, m.u).hall, []) == Serve(h, m.r, m.t, m.u).hall;
    } else {
      assert (ms + [m])[1..] == ms[1..] + [m] && (ms + [m])[0] == ms[0];
      AfterLast(Serve(h, ms[0].r, ms[0].t, ms[0].u).hall, ms[1..], m);
    }
  }

  // --- totals and room --------------------------------------------------------------------

  /** How many rooms were opened and messages taken, by the answers. */
  function Counted(told: Told): (nat, nat) {
    if told == [] then (0, 0)
    else
      var (openings, relayed) := Counted(told[..|told| - 1]);
      var resp := told[|told| - 1].1;
      (openings + if resp.Opened? then 1 else 0, relayed + if resp.Said? then 1 else 0)
  }

  lemma {:induction false} CountsAre(ms: seq<Moment>)
    ensures var (openings, relayed) := Counted(ToldFrom(EMPTY, ms));
            HallAt(EMPTY, ms).openings == openings && HallAt(EMPTY, ms).relayed == relayed
  {
    hide Serve;
    if ms != [] {
      CountsAre(ms[..|ms| - 1]);
      OneMore(HallAt(EMPTY, ms[..|ms| - 1]), ms[|ms| - 1]);
    }
  }

  lemma OneMore(h: Hall, m: Moment)
    ensures var turn := Serve(h, m.r, m.t, m.u);
            && turn.hall.openings == h.openings + (if turn.resp.Opened? then 1 else 0)
            && turn.hall.relayed == h.relayed + (if turn.resp.Said? then 1 else 0)
  {
    hide HeldBytes, ValidBlob, ValidId;
  }

  /** The totals told are those of the log; what was opened and is not there has expired. */
  lemma TotalsAreOfTheLog(ms: seq<Moment>, m: Moment)
    ensures var (openings, relayed) := Counted(ToldFrom(EMPTY, ms));
            var resp := Serve(HallAt(EMPTY, ms), m.r, m.t, m.u).resp;
            m.r.Stats? || m.r.Sweep? ==>
              resp.Totals? && resp.openings == openings && resp.relayed == relayed && resp.rooms + resp.expired == openings
  {
    CountsAre(ms);
    HallAtIsAfter(EMPTY, ms);
    NothingKept();
    RunIsSound(EMPTY, ms);
    hide Serve, Counted, ToldFrom, HallAt, After, Sound;
    StepIsSound(HallAt(EMPTY, ms), m.r, m.t, m.u);
    TotalsTold(HallAt(EMPTY, ms), m);
  }

  lemma NothingKept()
    ensures Sound(EMPTY)
  {
    assert Sizes(EMPTY.rooms) == map[];
  }

  lemma TotalsTold(h: Hall, m: Moment)
    requires Sound(Serve(h, m.r, m.t, m.u).hall)
    ensures var turn := Serve(h, m.r, m.t, m.u);
            m.r.Stats? || m.r.Sweep? ==>
              && turn.resp.Totals? && turn.resp.openings == h.openings && turn.resp.relayed == h.relayed
              && turn.resp.rooms == |turn.hall.rooms| && turn.resp.rooms + turn.resp.expired == h.openings
  {
    hide HeldBytes;
  }

  /** A message a room would take is refused exactly if keeping it were too much. */
  lemma RefusedIffTooMuch(h: Hall, id: string, blob: string, t: nat, u: nat)
    requires Live(h, id, t) && ValidBlob(blob)
    ensures Serve(h, Say(id, blob), t, u).resp == Fail(507)
       <==> HeldBytes(h.(rooms := h.rooms[id := Log(h.rooms[id].msgs + [Msg(|h.rooms[id].msgs| + 1, u, blob)], u)])) > MAX_TOTAL_BYTES
  {
    var msgs, m := h.rooms[id].msgs, Msg(|h.rooms[id].msgs| + 1, u, blob);
    TailGrows(msgs, m);
    BytesChange(h, id, Log(msgs + [m], u));
    hide Tail, Size, Sizes, Sum, ValidBlob, ValidId;
  }

  /** A room under a good name is refused for want of room exactly if as many as may be are counted. */
  lemma FullIff(h: Hall, id: string, t: nat, u: nat)
    requires MayName(id)
    ensures Serve(h, Open(id), t, u).resp == Fail(507) <==> Serve(h, Stats, t, u).resp.rooms >= 2000
    ensures Serve(h, Open(id), t, u).resp == Fail(409) ==> id in h.rooms
  {
    NameIff(id);
    hide ValidId, MayName;
  }
}
