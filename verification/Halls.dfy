/** backchannel/src/main.rs: what a relay of messages has to do, with every room's whole log at
    hand and every size added up anew. */
module Halls {
  import opened Common
  import opened MapSum
  import opened SetSize

  const MAX_BLOB := 8 * 1024
  const MAX_ROOMS := 2000
  const MAX_TOTAL_BYTES := 64 * 1024 * 1024
  const RING_CAP := 200
  const ROOM_TTL := 2 * 3600

  datatype Msg = Msg(n: nat, ts: nat, blob: string)

  /** All messages since the room was opened. */
  datatype Log = Log(msgs: seq<Msg>, lastActivity: nat)

  datatype Hall = Hall(rooms: map<string, Log>, openings: nat, relayed: nat, expired: nat)

  datatype Request = Open(id: string) | Say(id: string, blob: string) | History(id: string) | Stats | Sweep

  datatype Response =
    | Fail(code: nat)
    | Opened
    | Said(n: nat, ts: nat)
    | Shown(count: nat, msgs: seq<Msg>)
    | Totals(rooms: nat, openings: nat, relayed: nat, expired: nat)

  datatype Turn = Turn(hall: Hall, resp: Response)

  predicate ValidId(id: string) {
    10 <= |id| <= 16 && forall c :: c in id ==> 'a' <= c <= 'z' || '0' <= c <= '9'
  }

  predicate ValidBlob(b: string) {
    0 < |b| <= MAX_BLOB && forall c :: c in b ==> 'a' <= c <= 'z' || 'A' <= c <= 'Z' || '0' <= c <= '9' || c == '-' || c == '_'
  }

  /** What is kept of a log: its last two hundred messages. */
  function Tail(msgs: seq<Msg>): seq<Msg> {
    if |msgs| <= RING_CAP then msgs else msgs[|msgs| - RING_CAP..]
  }

  function Size(msgs: seq<Msg>): nat {
    if msgs == [] then 0 else |msgs[0].blob| + Size(msgs[1..])
  }

  function Sizes(rooms: map<string, Log>): map<string, nat> {
    map id | id in rooms :: Size(Tail(rooms[id].msgs))
  }

  /** The bytes of everything kept. */
  ghost function HeldBytes(h: Hall): nat {
    Sum(Sizes(h.rooms))
  }

  predicate Live(h: Hall, id: string, t: nat) {
    ValidId(id) && id in h.rooms && h.rooms[id].lastActivity + ROOM_TTL >= t
  }

  /** A room found dead is dropped on the spot. */
  function Missed(h: Hall, id: string): Turn {
    Turn(if ValidId(id) && id in h.rooms then h.(rooms := h.rooms - {id}, expired := h.expired + 1) else h, Fail(404))
  }

  ghost function Saying(h: Hall, id: string, blob: string, t: nat, u: nat): Turn {
    if !Live(h, id, t) then Missed(h, id)
    else if !ValidBlob(blob) then Turn(h, Fail(400))
    else
      var msgs := h.rooms[id].msgs;
      var freed := if |msgs| >= RING_CAP then |Tail(msgs)[0].blob| else 0;
      if HeldBytes(h) + |blob| > MAX_TOTAL_BYTES + freed then Turn(h, Fail(507))
      else
        var n := |msgs| + 1;
        Turn(h.(rooms := h.rooms[id := Log(msgs + [Msg(n, u, blob)], u)], relayed := h.relayed + 1), Said(n, u))
  }

  function Opening(h: Hall, id: string, t: nat): Turn {
    if !ValidId(id) then Turn(h, Fail(400))
    else if |h.rooms| >= MAX_ROOMS then Turn(h, Fail(507))
    else if id in h.rooms then Turn(h, Fail(409))
    else Turn(h.(rooms := h.rooms[id := Log([], t)], openings := h.openings + 1), Response.Opened)
  }

  function Kept(rooms: map<string, Log>, t: nat): map<string, Log> {
    map id | id in rooms && rooms[id].lastActivity + ROOM_TTL >= t :: rooms[id]
  }

  function TotalsOf(h: Hall): Response {
    Totals(|h.rooms|, h.openings, h.relayed, h.expired)
  }

  /** One request, at `t`; `u` is the clock when the handler reads it again. */
  ghost function Serve(h: Hall, r: Request, t: nat, u: nat): Turn {
    match r
    case Open(id) => Opening(h, id, t)
    case Say(id, blob) => Saying(h, id, blob, t, u)
    case History(id) => if Live(h, id, t) then Turn(h, Shown(|h.rooms[id].msgs|, Tail(h.rooms[id].msgs))) else Missed(h, id)
    case Stats => Turn(h, TotalsOf(h))
    case Sweep =>
      var kept := Kept(h.rooms, t);
      KeptAreFewer(h.rooms, t);
      var h' := h.(rooms := kept, expired := h.expired + |h.rooms| - |kept|);
      Turn(h', TotalsOf(h'))
  }

  lemma KeptAreFewer(rooms: map<string, Log>, t: nat)
    ensures |Kept(rooms, t)| <= |rooms|
  {
    SubsetSize(Kept(rooms, t).Keys, rooms.Keys);
    assert |Kept(rooms, t)| == |Kept(rooms, t).Keys| && |rooms| == |rooms.Keys|;
  }

  // --- what holds after any history -----------------------------------------------------

  /** Messages are numbered from one, without a gap. */
  ghost predicate Numbered(msgs: seq<Msg>) {
    forall i :: 0 <= i < |msgs| ==> msgs[i].n == i + 1
  }

  ghost predicate Sound(h: Hall) {
    && h.openings == |h.rooms| + h.expired
    && |h.rooms| <= MAX_ROOMS
    && HeldBytes(h) <= MAX_TOTAL_BYTES
    && forall id :: id in h.rooms ==> ValidId(id) && Numbered(h.rooms[id].msgs)
  }

  lemma {:induction false} SizeConcat(a: seq<Msg>, b: seq<Msg>)
    ensures Size(a + b) == Size(a) + Size(b)
  {
    if a == [] {
      assert a + b == b;
    } else {
      assert (a + b)[1..] == a[1..] + b;
      SizeConcat(a[1..], b);
    }
  }

  /** A full ring gives up its oldest message for the new one. */
  lemma TailGrows(msgs: seq<Msg>, m: Msg)
    ensures Tail(msgs + [m]) == (if |msgs| >= RING_CAP then Tail(msgs)[1..] else Tail(msgs)) + [m]
    ensures |msgs| >= RING_CAP ==> |Tail(msgs)| == RING_CAP && Size(Tail(msgs)) == |Tail(msgs)[0].blob| + Size(Tail(msgs)[1..])
    ensures Size(Tail(msgs + [m])) + (if |msgs| >= RING_CAP then |Tail(msgs)[0].blob| else 0) == Size(Tail(msgs)) + |m.blob|
  {
    var rest := if |msgs| >= RING_CAP then Tail(msgs)[1..] else Tail(msgs);
    SizeConcat(rest, [m]);
    assert Size([m]) == |m.blob| by {
      assert [m][1..] == [];
    }
  }

  lemma SizesChange(rooms: map<string, Log>, id: string, log: Log)
    ensures Sizes(rooms[id := log]) == Sizes(rooms)[id := Size(Tail(log.msgs))]
    ensures Sizes(rooms - {id}) == Sizes(rooms) - {id}
    ensures id in Sizes(rooms) <==> id in rooms
    ensures id in rooms ==> Sizes(rooms)[id] == Size(Tail(rooms[id].msgs))
  {
    hide Tail, Size;
  }

  /** How one more message, or one room less, changes the bytes kept. */
  lemma BytesChange(h: Hall, id: string, log: Log)
    ensures Sum(Sizes(h.rooms[id := log])) == Size(Tail(log.msgs)) + Sum(Sizes(h.rooms - {id}))
    ensures id in h.rooms ==> HeldBytes(h) == Size(Tail(h.rooms[id].msgs)) + Sum(Sizes(h.rooms - {id}))
    ensures id !in h.rooms ==> Sum(Sizes(h.rooms - {id})) == HeldBytes(h)
  {
    SizesChange(h.rooms, id, log);
    hide Tail, Size, Sizes, Sum;
    SumWith(Sizes(h.rooms), id, Size(Tail(log.msgs)));
  }

  lemma SayingIsSound(h: Hall, id: string, blob: string, t: nat, u: nat)
    requires Sound(h) && Live(h, id, t)
    ensures Sound(Saying(h, id, blob, t, u).hall)
  {
    hide Tail, Size, Sizes, Sum, ValidBlob, ValidId;
    var msgs := h.rooms[id].msgs;
    var m := Msg(|msgs| + 1, u, blob);
    TailGrows(msgs, m);
    BytesChange(h, id, Log(msgs + [m], u));
    MapSize(h.rooms, id, Log(msgs + [m], u));
  }

  lemma MissedIsSound(h: Hall, id: string)
    requires Sound(h)
    ensures Sound(Missed(h, id).hall)
  {
    hide Tail, Size, Sizes, Sum, ValidId;
    if id in h.rooms {
      BytesChange(h, id, h.rooms[id]);
      MapSize(h.rooms, id, h.rooms[id]);
    }
  }

  lemma OpeningIsSound(h: Hall, id: string, t: nat)
    requires Sound(h)
    ensures Sound(Opening(h, id, t).hall)
  {
    hide Tail, Size, Sizes, Sum, ValidId;
    if id !in h.rooms {
      BytesChange(h, id, Log([], t));
      EmptyTail();
      MapSize(h.rooms, id, Log([], t));
    }
  }

  lemma EmptyTail()
    ensures Size(Tail([])) == 0 && Numbered([])
  {
  }

  lemma SweepIsSound(h: Hall, t: nat)
    requires Sound(h)
    ensures Sound(Serve(h, Sweep, t, t).hall)
    ensures Sum(Sizes(Kept(h.rooms, t))) <= HeldBytes(h)
  {
    hide Tail, Size, ValidId, Sum;
    KeptAreFewer(h.rooms, t);
    SumOfPart(Sizes(Kept(h.rooms, t)), Sizes(h.rooms));
  }

  lemma StepIsSound(h: Hall, r: Request, t: nat, u: nat)
    requires Sound(h)
    ensures Sound(Serve(h, r, t, u).hall)
  {
    hide Sound, Saying, Opening, Missed, Kept;
    match r
    case Open(id) => OpeningIsSound(h, id, t);
    case Say(id, blob) => if Live(h, id, t) { SayingIsSound(h, id, blob, t, u); } else { SayingMisses(h, id, blob, t, u); MissedIsSound(h, id); }
    case History(id) => MissedIsSound(h, id);
    case Stats =>
    case Sweep =>
      SweepIsSound(h, t);
      KeptAreFewer(h.rooms, t);
  }

  lemma SayingMisses(h: Hall, id: string, blob: string, t: nat, u: nat)
    requires !Live(h, id, t)
    ensures Saying(h, id, blob, t, u) == Missed(h, id)
  {
  }

  datatype Moment = Moment(r: Request, t: nat, u: nat)

  ghost function After(h: Hall, ms: seq<Moment>): Hall
    decreases |ms|
  {
    if ms == [] then h else After(Serve(h, ms[0].r, ms[0].t, ms[0].u).hall, ms[1..])
  }

  const EMPTY := Hall(map[], 0, 0, 0)

  lemma {:induction false} RunIsSound(h: Hall, ms: seq<Moment>)
    requires Sound(h)
    ensures Sound(After(h, ms))
    decreases |ms|
  {
    hide Sound, Serve;
    if ms != [] {
      StepIsSound(h, ms[0].r, ms[0].t, ms[0].u);
      RunIsSound(Serve(h, ms[0].r, ms[0].t, ms[0].u).hall, ms[1..]);
    }
  }

  /** After any history the caps hold, every room opened is there or has expired, and what a
      room shows is its last messages, numbered up to its count. */
  lemma EveryHallIsSound(ms: seq<Moment>, id: string, t: nat)
    ensures var h := After(EMPTY, ms);
            && Sound(h)
            && (Live(h, id, t) ==>
                  var shown := Serve(h, History(id), t, t).resp;
                  && |shown.msgs| == (if shown.count < RING_CAP then shown.count else RING_CAP)
                  && forall i :: 0 <= i < |shown.msgs| ==> shown.msgs[i].n == shown.count - |shown.msgs| + i + 1)
  {
    assert Sizes(EMPTY.rooms) == map[];
    RunIsSound(EMPTY, ms);
    hide After, HeldBytes, ValidId;
  }
}
