/** backchannel/src/main.rs: the server itself, with a ring per room and a running byte count. */
module Backchannel {
  import opened Common
  import opened MapSum
  import opened SetSize
  import opened Halls

  datatype Room = Room(ring: seq<Msg>, count: nat, created: nat, lastActivity: nat)

  ghost predicate Fits(r: Room, log: Log) {
    r.ring == Tail(log.msgs) && r.count == |log.msgs| && r.lastActivity == log.lastActivity
  }

  ghost predicate AllFit(rooms: map<string, Room>, logs: map<string, Log>) {
    rooms.Keys == logs.Keys && forall id :: id in rooms ==> Fits(rooms[id], logs[id])
  }

  lemma FitsAt(rooms: map<string, Room>, logs: map<string, Log>, id: string)
    requires AllFit(rooms, logs) && id in rooms
    ensures Fits(rooms[id], logs[id]) && AllFit(rooms - {id}, logs - {id})
  {
    hide Fits;
  }

  lemma FitUpdate(rooms: map<string, Room>, logs: map<string, Log>, id: string, r: Room, log: Log)
    requires AllFit(rooms, logs) && Fits(r, log)
    ensures AllFit(rooms[id := r], logs[id := log])
  {
    hide Fits;
  }

  lemma AllThere(rooms: map<string, Room>, logs: map<string, Log>)
    requires AllFit(rooms, logs)
    ensures rooms.Keys == logs.Keys && |rooms| == |logs|
  {
    assert |rooms| == |rooms.Keys| && |logs| == |logs.Keys|;
  }

  method BlobBytes(ring: seq<Msg>) returns (n: nat)
    ensures n == Size(ring)
  {
    n := 0;
    assert ring[0..] == ring;
    for i := 0 to |ring|
      invariant n + Size(ring[i..]) == Size(ring)
    {
      assert ring[i..][0] == ring[i] && ring[i..][1..] == ring[i + 1..];
      n := n + |ring[i].blob|;
    }
  }

  function Retained(rooms: map<string, Room>, t: nat): map<string, Room> {
    map id | id in rooms && rooms[id].lastActivity + ROOM_TTL >= t :: rooms[id]
  }

  class App {
    var rooms: map<string, Room>
    var totalBytes: nat
    var openings: nat
    var relayed: nat
    var expired: nat
    /** The same with every log whole. */
    ghost var hall: Hall

    ghost predicate Valid()
      reads this
    {
      && Sound(hall)
      && AllFit(rooms, hall.rooms)
      && totalBytes == HeldBytes(hall)
      && openings == hall.openings && relayed == hall.relayed && expired == hall.expired
    }

    constructor ()
      ensures Valid() && hall == EMPTY
    {
      rooms, totalBytes, openings, relayed, expired, hall := map[], 0, 0, 0, 0, EMPTY;
      EmptyHall();
    }

    method ApiRooms(id: string, t: nat) returns (resp: Response)
      requires Valid()
      modifies this
      ensures Valid() && Turn(hall, resp) == Opening(old(hall), id, t)
    {
      hide Sound, AllFit, HeldBytes, ValidId;
      AllThere(rooms, hall.rooms);
      OpeningIsSound(hall, id, t);
      if !ValidId(id) {
        return Fail(400);
      }
      if |rooms| >= MAX_ROOMS {
        return Fail(507);
      }
      if id in rooms {
        return Fail(409);
      }
      NewRoom(rooms, hall, id, t);
      openings := openings + 1;
      rooms := rooms[id := Room([], 0, t, t)];
      hall := hall.(rooms := hall.rooms[id := Log([], t)], openings := hall.openings + 1);
      return Response.Opened;
    }

    /** `live_room`: false for every kind of miss. */
    method LiveRoom(id: string, t: nat) returns (live: bool)
      requires Valid()
      modifies this
      ensures Valid()
      ensures live == Live(old(hall), id, t)
      ensures live ==> hall == old(hall) && rooms == old(rooms) && id in rooms && id in hall.rooms
      ensures !live ==> hall == Missed(old(hall), id).hall
    {
      hide Sound, AllFit, HeldBytes, ValidId;
      AllThere(rooms, hall.rooms);
      MissedIsSound(hall, id);
      if !ValidId(id) || id !in rooms {
        return false;
      }
      FitsAt(rooms, hall.rooms, id);
      if rooms[id].lastActivity + ROOM_TTL >= t {
        return true;
      }
      RoomGone(hall, id);
      var bytes := BlobBytes(rooms[id].ring);
      totalBytes := totalBytes - bytes;
      rooms := rooms - {id};
      expired := expired + 1;
      hall := hall.(rooms := hall.rooms - {id}, expired := hall.expired + 1);
      return false;
    }

    /** `api_msg`: the ring takes the message, a full one for its oldest. */
    method ApiMsg(id: string, blob: string, t: nat, u: nat) returns (resp: Response)
      requires Valid()
      modifies this
      ensures Valid() && Turn(hall, resp) == Saying(old(hall), id, blob, t, u)
    {
      hide Sound, AllFit, HeldBytes, Live, Missed, ValidBlob, Tail, Size;
      ghost var was := hall;
      var live := LiveRoom(id, t);
      if !live {
        MissFails(was, id);
        return Fail(404);
      }
      if !ValidBlob(blob) {
        return Fail(400);
      }
      SayingIsSound(hall, id, blob, t, u);
      FitsAt(rooms, hall.rooms, id);
      var room := rooms[id];
      ghost var msgs := hall.rooms[id].msgs;
      ghost var m := Msg(|msgs| + 1, u, blob);
      RingIsFull(msgs);
      TailGrows(msgs, m);
      BytesGrow(hall, id, m, u);
      var freed := if |room.ring| >= RING_CAP then |room.ring[0].blob| else 0;
      if totalBytes + |blob| > MAX_TOTAL_BYTES + freed {
        return Fail(507);
      }
      if |room.ring| >= RING_CAP {
        totalBytes := totalBytes - |room.ring[0].blob|;
        room := room.(ring := room.ring[1..]);
      }
      var n := room.count + 1;
      totalBytes := totalBytes + |blob|;
      relayed := relayed + 1;
      room := room.(count := n, lastActivity := u, ring := room.ring + [Msg(n, u, blob)]);
      FitUpdate(rooms, hall.rooms, id, room, Log(msgs + [m], u));
      rooms := rooms[id := room];
      hall := hall.(rooms := hall.rooms[id := Log(msgs + [m], u)], relayed := hall.relayed + 1);
      return Said(n, u);
    }

    method ApiHistory(id: string, t: nat) returns (resp: Response)
      requires Valid()
      modifies this
      ensures Valid() && Turn(hall, resp) == Serve(old(hall), History(id), t, t)
    {
      hide Sound, AllFit, HeldBytes, Live, Missed, Tail;
      ghost var was := hall;
      var live := LiveRoom(id, t);
      if !live {
        MissFails(was, id);
        return Fail(404);
      }
      FitsAt(rooms, hall.rooms, id);
      return Shown(rooms[id].count, rooms[id].ring);
    }

    /** The half-minute sweep: `retain`, and the byte count anew if anything went. */
    method SweepRooms(t: nat) returns (resp: Response)
      requires Valid()
      modifies this
      ensures Valid() && Turn(hall, resp) == Serve(old(hall), Sweep, t, t)
    {
      hide Sound, AllFit, HeldBytes, Sizes, Kept, Retained, Sum;
      SweepIsSound(hall, t);
      KeptAreFewer(hall.rooms, t);
      AllThere(rooms, hall.rooms);
      SweptFit(rooms, hall.rooms, t);
      var before := |rooms|;
      rooms := Retained(rooms, t);
      ghost var after := hall.(rooms := Kept(hall.rooms, t), expired := hall.expired + |hall.rooms| - |Kept(hall.rooms, t)|);
      AllThere(rooms, after.rooms);
      var swept := before - |rooms|;
      if swept > 0 {
        expired := expired + swept;
        totalBytes := CountBytes(after);
      } else {
        NoneSwept(hall.rooms, t);
      }
      hall := after;
      return Totals(|rooms|, openings, relayed, expired);
    }

    method CountBytes(ghost h: Hall) returns (n: nat)
      requires AllFit(rooms, h.rooms)
      ensures n == HeldBytes(h)
    {
      hide Sum, Size, AllFit;
      SizesFit(rooms, h.rooms);
      BytesOf(h);
      var sizes: map<string, nat> := map[];
      var left := rooms.Keys;
      while left != {}
        invariant left <= rooms.Keys
        invariant sizes == map id | id in rooms && id !in left :: Size(rooms[id].ring)
      {
        var id :| id in left;
        var bytes := BlobBytes(rooms[id].ring);
        sizes := sizes[id := bytes];
        left := left - {id};
      }
      assert sizes == map id | id in rooms :: Size(rooms[id].ring);
      n := SumUp(sizes);
    }

    /** The server does what `Serve` says, request by request. */
    method Route(r: Request, t: nat, u: nat) returns (resp: Response)
      requires Valid()
      modifies this
      ensures Valid() && Turn(hall, resp) == Serve(old(hall), r, t, u)
    {
      hide Sound, AllFit, HeldBytes, Saying, Opening, Live, Missed, Kept, Tail;
      match r
      case Open(id) => resp := ApiRooms(id, t);
      case Say(id, blob) => resp := ApiMsg(id, blob, t, u);
      case History(id) => resp := ApiHistory(id, t);
      case Stats =>
        AllThere(rooms, hall.rooms);
        resp := Totals(|rooms|, openings, relayed, expired);
      case Sweep => resp := SweepRooms(t);
    }
  }

  lemma EmptyHall()
    ensures Sound(EMPTY) && AllFit(map[], EMPTY.rooms) && HeldBytes(EMPTY) == 0
  {
    assert Sizes(EMPTY.rooms) == map[];
  }

  lemma NewRoom(rooms: map<string, Room>, h: Hall, id: string, t: nat)
    requires AllFit(rooms, h.rooms) && id !in h.rooms
    ensures AllFit(rooms[id := Room([], 0, t, t)], h.rooms[id := Log([], t)])
    ensures HeldBytes(h.(rooms := h.rooms[id := Log([], t)], openings := h.openings + 1)) == HeldBytes(h)
  {
    BytesChange(h, id, Log([], t));
    EmptyTail();
    FitUpdate(rooms, h.rooms, id, Room([], 0, t, t), Log([], t));
  }

  lemma RoomGone(h: Hall, id: string)
    requires id in h.rooms
    ensures HeldBytes(h) == Size(Tail(h.rooms[id].msgs)) + HeldBytes(h.(rooms := h.rooms - {id}, expired := h.expired + 1))
  {
    BytesChange(h, id, h.rooms[id]);
  }

  lemma MissFails(h: Hall, id: string)
    ensures Missed(h, id).resp == Fail(404)
  {
  }

  lemma RingIsFull(msgs: seq<Msg>)
    ensures |Tail(msgs)| >= RING_CAP <==> |msgs| >= RING_CAP
  {
  }

  lemma BytesGrow(h: Hall, id: string, m: Msg, u: nat)
    requires id in h.rooms
    ensures var msgs := h.rooms[id].msgs;
            var h' := h.(rooms := h.rooms[id := Log(msgs + [m], u)], relayed := h.relayed + 1);
            && HeldBytes(h') + Size(Tail(msgs)) == HeldBytes(h) + Size(Tail(msgs + [m]))
            && HeldBytes(h) >= Size(Tail(msgs))
  {
    BytesChange(h, id, Log(h.rooms[id].msgs + [m], u));
  }

  lemma SweptFit(rooms: map<string, Room>, logs: map<string, Log>, t: nat)
    requires AllFit(rooms, logs)
    ensures AllFit(Retained(rooms, t), Kept(logs, t))
  {
    hide Tail;
  }

  lemma SizesFit(rooms: map<string, Room>, logs: map<string, Log>)
    requires AllFit(rooms, logs)
    ensures (map id | id in rooms :: Size(rooms[id].ring)) == Sizes(logs)
  {
    hide Tail, Size;
  }

  lemma BytesOf(h: Hall)
    ensures HeldBytes(h) == Sum(Sizes(h.rooms))
  {
  }

  /** If as many rooms are kept as there were, all of them were. */
  lemma NoneSwept(rooms: map<string, Log>, t: nat)
    requires |Kept(rooms, t)| == |rooms|
    ensures Kept(rooms, t) == rooms
  {
    var kept := Kept(rooms, t);
    assert |kept| == |kept.Keys| && |rooms| == |rooms.Keys|;
    SubsetSize(kept.Keys, rooms.Keys);
  }
}
