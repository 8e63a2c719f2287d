/** What dead-drop tells, held against nothing but what it was asked and how it answered: the log of a
    drop's making and reads says what every later answer about it has to be. */
module ShelfRecords {
  import opened Ascii
  import opened Common
  import opened MapSum
  import opened Shelves

  /** What the log says of the drop last made under an id: what was put in it, the reads it has left,
      until when it keeps, and whether it was burned or a clock has run out on it. */
  datatype Record = Record(blob: string, left: nat, expires: nat, burn: Option<string>, burned: bool, late: bool)

  type Told = seq<(Moment, Response)>

  predicate Makes(m: Moment, resp: Response, id: string) {
    m.r.Create? && m.r.id == id && resp.Made?
  }

  function MadeFrom(m: Moment, resp: Response): Record
    requires m.r.Create? && resp.Made?
  {
    Record(if m.r.blob.Some? then m.r.blob.value else "", if m.r.times.Some? then m.r.times.value else 1, resp.expiresAt,
           m.r.burn, false, false)
  }

  function Noted(r: Record, m: Moment, resp: Response, id: string): Record {
    var late := r.late || m.t >= r.expires;
    if m.r.Take? && m.r.id == id && resp.Revealed? then r.(left := if r.left > 0 then r.left - 1 else 0, late := late)
    else if m.r.Burn? && m.r.id == id && resp.BurnedNow? then r.(burned := true, late := late)
    else r.(late := late)
  }

  function RecordOf(told: Told, id: string): Option<Record> {
    if told == [] then None
    else
      var (m, resp) := told[|told| - 1];
      if Makes(m, resp, id) then Some(MadeFrom(m, resp))
      else
        match RecordOf(told[..|told| - 1], id)
        case None => None
        case Some(r) => Some(Noted(r, m, resp, id))
  }

  // --- what an answer has to be -----------------------------------------------------------

  predicate InAlphabet(s: string) {
    forall i :: 0 <= i < |s| ==>
                  'a' <= s[i] <= 'z' || 'A' <= s[i] <= 'Z' || '0' <= s[i] <= '9' || s[i] == '-' || s[i] == '_'
  }

  /** What may be dropped: up to 96 KiB, for one to 25 reads, for a minute to a week. */
  predicate MayDrop(r: Request)
    requires r.Create?
  {
    && 16 <= |r.id| <= 43 && InAlphabet(r.id)
    && r.blob.Some? && 0 < |r.blob.value| <= 98_304 && InAlphabet(r.blob.value)
    && (r.times.Some? ==> 1 <= r.times.value <= 25)
    && (r.ttl.Some? ==> 60 <= r.ttl.value <= 604_800)
    && (r.burn.Some? ==> HexHash(r.burn.value))
  }

  /** Something is left, and in its time. */
  predicate There(r: Option<Record>, m: Moment) {
    r.Some? && !r.value.burned && r.value.left > 0 && m.t < r.value.expires
  }

  predicate InTime(r: Option<Record>, m: Moment) {
    There(r, m) && !r.value.late
  }

  predicate BurnedBy(hash: Hash, r: Record, token: string) {
    token != "" && r.burn.Some? && hash(token) == Lower(r.burn.value)
  }

  /** What the answer to one request has to be, the record of its drop being `r` before it. */
  ghost predicate Truthful(hash: Hash, r: Option<Record>, m: Moment, resp: Response) {
    match m.r
    case Create(_, _, _, ttl, _) =>
      && (resp == Fail(400) <==> !MayDrop(m.r))
      && (resp.Made? ==> resp.expiresAt == m.t + if ttl.Some? then ttl.value else 86_400)
      && (resp.Made? || resp == Fail(400) || resp == Fail(507) || (resp == Fail(409) && r.Some?))
    case Take(id) =>
      if resp.Revealed? then There(r, m) && resp == Revealed(r.value.blob, r.value.left - 1)
      else resp == Fail(404) && !InTime(r, m)
    case Peek(id) =>
      if resp.Peeked? then
        && There(r, m) && resp.readsLeft == r.value.left && resp.size == |r.value.blob|
        && resp.expiresIn as int == (if r.value.expires > m.u then r.value.expires - m.u else 0)
      else resp == Fail(404) && !InTime(r, m)
    case Burn(id, token) =>
      if resp.BurnedNow? then There(r, m) && BurnedBy(hash, r.value, token)
      else (resp == Fail(404) && !InTime(r, m)) || (resp == Fail(403) && There(r, m) && !BurnedBy(hash, r.value, token))
    case Stats => resp.Totals?
    case Sweep => resp.Totals?
  }

  function DropOf(r: Request): string {
    match r
    case Create(id, _, _, _, _) => id
    case Take(id) => id
    case Peek(id) => id
    case Burn(id, _) => id
    case Stats => ""
    case Sweep => ""
  }

  // --- the shelf and the log --------------------------------------------------------------

  ghost predicate Fits(r: Record, d: Drop) {
    && d.blob == r.blob && d.readsLeft == r.left && d.expiresAt == r.expires && !r.burned && r.left > 0
    && d.burnHash == if r.burn.Some? then Some(Lower(r.burn.value)) else None
  }

  ghost predicate Recorded(s: Shelf, told: Told, id: string) {
    var r := RecordOf(told, id);
    && (id in s.drops ==> r.Some? && Fits(r.value, s.drops[id]))
    && (r.Some? && !r.value.late && !r.value.burned && r.value.left > 0 ==> id in s.drops && ValidId(id))
  }

  lemma ToldNext(told: Told, m: Moment, resp: Response, id: string)
    ensures RecordOf(told + [(m, resp)], id)
         == if Makes(m, resp, id) then Some(MadeFrom(m, resp))
            else match RecordOf(told, id) case None => None case Some(r) => Some(Noted(r, m, resp, id))
  {
    assert (told + [(m, resp)])[..|told|] == told;
  }

  lemma FormIff(r: Request)
    requires r.Create?
    ensures WellFormed(r) <==> MayDrop(r)
  {
    AlphabetIff(r.id);
    if r.blob.Some? {
      AlphabetIff(r.blob.value);
    }
    hide HexHash, InAlphabet, Plain;
  }

  lemma AlphabetIff(s: string)
    ensures (forall c :: c in s ==> Plain(c)) <==> InAlphabet(s)
  {
    assert forall i :: 0 <= i < |s| ==> s[i] in s;
  }

  lemma StepIsTruthful(hash: Hash, s: Shelf, told: Told, m: Moment)
    requires forall id :: Recorded(s, told, id)
    ensures Truthful(hash, RecordOf(told, DropOf(m.r)), m, Serve(hash, s, m.r, m.t, m.u).resp)
  {
    assert Recorded(s, told, DropOf(m.r));
    if m.r.Create? {
      FormIff(m.r);
    }
    hide RecordOf, CountedBytes, MayDrop, ValidId, ValidBlob, HexHash, Lower, WellFormed;
    if m.r.Create? && WellFormed(m.r) {
      MadeAsAsked(m.r, m.t);
    }
  }

  lemma MadeAsAsked(r: Request, t: nat)
    requires r.Create? && WellFormed(r)
    ensures MadeBy(r, t).expiresAt == t + if r.ttl.Some? then r.ttl.value else 86_400
    ensures r.blob.Some? && MadeBy(r, t).blob == r.blob.value && ValidId(r.id)
    ensures MadeBy(r, t).readsLeft == (if r.times.Some? then r.times.value else 1) > 0
    ensures MadeBy(r, t).burnHash == if r.burn.Some? then Some(Lower(r.burn.value)) else None
  {
  }

  /** What a request that does not make the drop does to it. */
  ghost predicate Passed(s: Shelf, m: Moment, turn: Turn, id: string) {
    && (id in turn.shelf.drops ==> id in s.drops)
    && (id in turn.shelf.drops ==>
          && !(m.r.Burn? && m.r.id == id && turn.resp.BurnedNow?)
          && turn.shelf.drops[id]
             == (if m.r.Take? && m.r.id == id && turn.resp.Revealed? && s.drops[id].readsLeft > 0 then
                   s.drops[id].(readsLeft := s.drops[id].readsLeft - 1)
                 else s.drops[id])
          && (m.r.Take? && m.r.id == id && turn.resp.Revealed? ==> s.drops[id].readsLeft > 1))
    && (id in s.drops && id !in turn.shelf.drops && ValidId(id) ==>
          || m.t >= s.drops[id].expiresAt
          || (m.r.Take? && m.r.id == id && turn.resp.Revealed? && s.drops[id].readsLeft <= 1)
          || (m.r.Burn? && m.r.id == id && turn.resp.BurnedNow?))
  }

  lemma StepPasses(hash: Hash, s: Shelf, m: Moment, id: string)
    ensures var turn := Serve(hash, s, m.r, m.t, m.u); !Makes(m, turn.resp, id) ==> Passed(s, m, turn, id)
  {
    if m.r.Create? {
      CreationPasses(hash, s, m, id);
    } else {
      OtherPasses(hash, s, m, id);
    }
  }

  lemma CreationPasses(hash: Hash, s: Shelf, m: Moment, id: string)
    requires m.r.Create?
    ensures var turn := Serve(hash, s, m.r, m.t, m.u); !Makes(m, turn.resp, id) ==> Passed(s, m, turn, id)
  {
    hide CountedBytes, ValidBlob, ValidId, WellFormed, MadeBy;
  }

  lemma OtherPasses(hash: Hash, s: Shelf, m: Moment, id: string)
    requires !m.r.Create?
    ensures var turn := Serve(hash, s, m.r, m.t, m.u); !Makes(m, turn.resp, id) ==> Passed(s, m, turn, id)
  {
    hide CountedBytes, ValidBlob, ValidId, WellFormed, MadeBy, Creation;
  }

  lemma StepRecords(hash: Hash, s: Shelf, told: Told, m: Moment, id: string)
    requires Recorded(s, told, id)
    ensures var turn := Serve(hash, s, m.r, m.t, m.u); Recorded(turn.shelf, told + [(m, turn.resp)], id)
  {
    var turn := Serve(hash, s, m.r, m.t, m.u);
    ToldNext(told, m, turn.resp, id);
    if Makes(m, turn.resp, id) {
      hide RecordOf, CountedBytes, WellFormed, MadeBy, Lower, ValidId;
      MadeAsAsked(m.r, m.t);
    } else {
      StepPasses(hash, s, m, id);
      hide RecordOf, Serve, Lower, ValidId;
    }
  }

  // --- whole histories --------------------------------------------------------------------

  /** What is told, request by request. */
  ghost function ToldFrom(hash: Hash, s: Shelf, ms: seq<Moment>): (told: Told)
    ensures |told| == |ms|
  {
    if ms == [] then []
    else
      var init, m := ms[..|ms| - 1], ms[|ms| - 1];
      ToldFrom(hash, s, init) + [(m, Serve(hash, ShelfAt(hash, s, init), m.r, m.t, m.u).resp)]
  }

  ghost function ShelfAt(hash: Hash, s: Shelf, ms: seq<Moment>): Shelf {
    if ms == [] then s
    else
      var m := ms[|ms| - 1];
      Serve(hash, ShelfAt(hash, s, ms[..|ms| - 1]), m.r, m.t, m.u).shelf
  }

  lemma {:induction false} AllRecorded(hash: Hash, ms: seq<Moment>, id: string)
    ensures Recorded(ShelfAt(hash, EMPTY, ms), ToldFrom(hash, EMPTY, ms), id)
  {
    hide Serve, RecordOf, Recorded;
    if ms == [] {
      NothingRecorded(id);
    } else {
      AllRecorded(hash, ms[..|ms| - 1], id);
      StepRecords(hash, ShelfAt(hash, EMPTY, ms[..|ms| - 1]), ToldFrom(hash, EMPTY, ms[..|ms| - 1]), ms[|ms| - 1], id);
    }
  }

  lemma NothingRecorded(id: string)
    ensures Recorded(EMPTY, [], id)
  {
  }

  /** In any history of a server that begins empty, every answer is what the log before it says it
      has to be: a take reveals what was dropped and counts the reads down, only the token that was
      given for it burns a drop, and a drop is missing only once it was read out, burned, or due. */
  lemma EveryAnswerIsTruthful(hash: Hash, ms: seq<Moment>, m: Moment)
    ensures Truthful(hash, RecordOf(ToldFrom(hash, EMPTY, ms), DropOf(m.r)), m,
                     Serve(hash, ShelfAt(hash, EMPTY, ms), m.r, m.t, m.u).resp)
  {
    forall id ensures Recorded(ShelfAt(hash, EMPTY, ms), ToldFrom(hash, EMPTY, ms), id) {
      AllRecorded(hash, ms, id);
    }
    hide ShelfAt, ToldFrom, Recorded, RecordOf, Truthful, Serve;
    StepIsTruthful(hash, ShelfAt(hash, EMPTY, ms), ToldFrom(hash, EMPTY, ms), m);
  }

  /** These are the shelves of `Shelves`. */
  lemma {:induction false} ShelfAtIsAfter(hash: Hash, s: Shelf, ms: seq<Moment>)
    ensures ShelfAt(hash, s, ms) == After(hash, s, ms)
  {
    hide Serve;
    if ms != [] {
      ShelfAtIsAfter(hash, s, ms[..|ms| - 1]);
      AfterLast(hash, s, ms[..|ms| - 1], ms[|ms| - 1]);
      assert ms == ms[..|ms| - 1] + [ms[|ms| - 1]];
    }
  }

  lemma {:induction false} AfterLast(hash: Hash, s: Shelf, ms: seq<Moment>, m: Moment)
    ensures After(hash, s, ms + [m]) == Serve(hash, After(hash, s, ms), m.r, m.t, m.u).shelf
    decreases |ms|
  {
    hide Serve;
    if ms == [] {
      assert ms + [m] == [m] && [m][1..] == [];
      assert After(hash, Serve(hash, s, m.r, m.t, m.u).shelf, []) == Serve(hash, s, m.r, m.t, m.u).shelf;
    } else {
      assert (ms + [m])[1..] == ms[1..] + [m] && (ms + [m])[0] == ms[0];
      AfterLast(hash, Serve(hash, s, ms[0].r, ms[0].t, ms[0].u).shelf, ms[1..], m);
    }
  }

  // --- totals -----------------------------------------------------------------------------

  /** How many drops were made, read out and burned, by the answers. */
  function Counted(told: Told): (nat, nat, nat) {
    if told == [] then (0, 0, 0)
    else
      var (made, consumed, burned) := Counted(told[..|told| - 1]);
      var resp := told[|told| - 1].1;
      (made + if resp.Made? then 1 else 0,
       consumed + if resp.Revealed? && resp.readsLeft == 0 then 1 else 0,
       burned + if resp.BurnedNow? then 1 else 0)
  }

  lemma {:induction false} CountsAre(hash: Hash, ms: seq<Moment>)
    ensures var (made, consumed, burned) := Counted(ToldFrom(hash, EMPTY, ms));
            var s := ShelfAt(hash, EMPTY, ms);
            s.created == made && s.consumed == consumed && s.burned == burned
  {
    hide Serve;
    if ms != [] {
      CountsAre(hash, ms[..|ms| - 1]);
      OneMore(hash, ShelfAt(hash, EMPTY, ms[..|ms| - 1]), ms[|ms| - 1]);
    }
  }

  lemma OneMore(hash: Hash, s: Shelf, m: Moment)
    ensures var turn := Serve(hash, s, m.r, m.t, m.u);
            && turn.shelf.created == s.created + (if turn.resp.Made? then 1 else 0)
            && turn.shelf.consumed == s.consumed + (if turn.resp.Revealed? && turn.resp.readsLeft == 0 then 1 else 0)
            && turn.shelf.burned == s.burned + (if turn.resp.BurnedNow? then 1 else 0)
  {
    hide CountedBytes, ValidBlob, ValidId, WellFormed, MadeBy;
  }

  /** The totals told are those of the log; what was made and is neither there, read out nor burned
      has expired. */
  lemma TotalsAreOfTheLog(hash: Hash, ms: seq<Moment>, m: Moment)
    ensures var (made, consumed, burned) := Counted(ToldFrom(hash, EMPTY, ms));
            var resp := Serve(hash, ShelfAt(hash, EMPTY, ms), m.r, m.t, m.u).resp;
            m.r.Stats? || m.r.Sweep? ==>
              && resp.Totals? && resp.created == made && resp.consumed == consumed && resp.burned == burned
              && made == resp.drops + resp.consumed + resp.expired + resp.burned
  {
    hide *;
    CountsAre(hash, ms);
    ShelfAtIsAfter(hash, EMPTY, ms);
    NothingHeld();
    EveryShelfIsSound(hash, ms, EMPTY);
    StepIsSound(hash, ShelfAt(hash, EMPTY, ms), m.r, m.t, m.u);
    TotalsTold(hash, ShelfAt(hash, EMPTY, ms), m);
  }

  lemma NothingHeld()
    ensures Sound(EMPTY)
  {
  }

  lemma TotalsTold(hash: Hash, s: Shelf, m: Moment)
    requires Sound(Serve(hash, s, m.r, m.t, m.u).shelf)
    ensures var turn := Serve(hash, s, m.r, m.t, m.u);
            m.r.Stats? || m.r.Sweep? ==>
              && turn.resp.Totals? && turn.resp.created == s.created && turn.resp.consumed == s.consumed && turn.resp.burned == s.burned
              && s.created == turn.resp.drops + turn.resp.consumed + turn.resp.expired + turn.resp.burned
              && turn.resp.drops == |turn.shelf.drops| && turn.resp.bytes == CountedBytes(turn.shelf)
  {
    hide CountedBytes;
  }

  /** A drop that may be made is refused for want of room exactly if as many as may be are counted, or
      it would take the bytes counted past the cap. */
  lemma FullIff(hash: Hash, s: Shelf, r: Request, t: nat, u: nat)
    requires r.Create? && MayDrop(r)
    ensures var told := Serve(hash, s, Stats, t, u).resp;
            && (Serve(hash, s, r, t, u).resp == Fail(507) <==> told.drops >= 20_000 || told.bytes + |r.blob.value| > 50_331_648)
            && (Serve(hash, s, r, t, u).resp == Fail(409) ==> r.id in s.drops)
  {
    FormIff(r);
    hide WellFormed, MayDrop, MadeBy, CountedBytes;
  }
}
