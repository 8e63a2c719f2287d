/** dead-drop/src/main.rs: what a drop box has to do, with every size added up anew. */
module Shelves {
  import opened Common
  import opened Ascii
  import opened MapSum
  import opened SetSize

  const MAX_BLOB := 96 * 1024
  const MAX_DROPS := 20000
  const MAX_TOTAL_BYTES := 48 * 1024 * 1024
  const MIN_TTL := 60
  const MAX_TTL := 7 * 24 * 3600
  const DEFAULT_TTL := 24 * 3600
  const MAX_READS := 25

  type Hash = string -> string

  datatype Drop = Drop(blob: string, readsLeft: nat, expiresAt: nat, burnHash: Option<string>)

  /** `leaked` counts the bytes of drops that a lookup found expired: they are gone, but not off
      the server's count until a sweep removes something. */
  datatype Shelf = Shelf(drops: map<string, Drop>, leaked: nat, created: nat, consumed: nat, expired: nat, burned: nat)

  /** A number of reads or a time to live that does not parse counts as absent. */
  datatype Request =
    | Create(id: string, blob: Option<string>, times: Option<nat>, ttl: Option<nat>, burn: Option<string>)
    | Take(id: string)
    | Peek(id: string)
    | Burn(id: string, token: string)
    | Stats
    | Sweep

  datatype Response =
    | Fail(code: nat)
    | Made(expiresAt: nat)
    | Revealed(blob: string, readsLeft: nat)
    | Peeked(readsLeft: nat, expiresIn: nat, size: nat)
    | BurnedNow
    | Totals(drops: nat, bytes: nat, created: nat, consumed: nat, expired: nat, burned: nat)

  datatype Turn = Turn(shelf: Shelf, resp: Response)

  predicate Plain(c: char) {
    'a' <= c <= 'z' || 'A' <= c <= 'Z' || '0' <= c <= '9' || c == '-' || c == '_'
  }

  predicate ValidId(id: string) {
    16 <= |id| <= 43 && forall c :: c in id ==> Plain(c)
  }

  predicate ValidBlob(b: string) {
    0 < |b| <= MAX_BLOB && forall c :: c in b ==> Plain(c)
  }

  function Or(o: Option<nat>, n: nat): nat {
    if o.Some? then o.value else n
  }

  function Sizes(drops: map<string, Drop>): map<string, nat> {
    map id | id in drops :: |drops[id].blob|
  }

  /** The bytes held, and what the server takes them for. */
  ghost function HeldBytes(s: Shelf): nat {
    Sum(Sizes(s.drops))
  }

  ghost function CountedBytes(s: Shelf): nat {
    HeldBytes(s) + s.leaked
  }

  predicate WellFormed(r: Request)
    requires r.Create?
  {
    && ValidId(r.id)
    && r.blob.Some? && ValidBlob(r.blob.value)
    && 0 < Or(r.times, 1) <= MAX_READS
    && MIN_TTL <= Or(r.ttl, DEFAULT_TTL) <= MAX_TTL
    && (r.burn.Some? ==> HexHash(r.burn.value))
  }

  function MadeBy(r: Request, t: nat): Drop
    requires r.Create? && WellFormed(r)
  {
    Drop(r.blob.value, Or(r.times, 1), t + Or(r.ttl, DEFAULT_TTL), if r.burn.Some? then Some(Lower(r.burn.value)) else None)
  }

  ghost function Creation(s: Shelf, r: Request, t: nat): Turn
    requires r.Create?
  {
    if !WellFormed(r) then Turn(s, Fail(400))
    else if |s.drops| >= MAX_DROPS || CountedBytes(s) + |r.blob.value| > MAX_TOTAL_BYTES then Turn(s, Fail(507))
    else if r.id in s.drops then Turn(s, Fail(409))
    else Turn(s.(drops := s.drops[r.id := MadeBy(r, t)], created := s.created + 1), Made(MadeBy(r, t).expiresAt))
  }

  predicate Live(s: Shelf, id: string, t: nat) {
    ValidId(id) && id in s.drops && s.drops[id].expiresAt > t
  }

  /** A drop found expired goes, but its bytes stay on the count. */
  function Missed(s: Shelf, id: string): Turn {
    Turn(if ValidId(id) && id in s.drops then
           s.(drops := s.drops - {id}, expired := s.expired + 1, leaked := s.leaked + |s.drops[id].blob|)
         else s,
         Fail(404))
  }

  function Taking(s: Shelf, id: string, t: nat): Turn {
    if !Live(s, id, t) then Missed(s, id)
    else
      var d := s.drops[id];
      if d.readsLeft <= 1 then Turn(s.(drops := s.drops - {id}, consumed := s.consumed + 1), Revealed(d.blob, 0))
      else Turn(s.(drops := s.drops[id := d.(readsLeft := d.readsLeft - 1)]), Revealed(d.blob, d.readsLeft - 1))
  }

  function Burning(hash: Hash, s: Shelf, id: string, token: string, t: nat): Turn {
    if !Live(s, id, t) then Missed(s, id)
    else
      var d := s.drops[id];
      if d.burnHash.None? || token == "" || hash(token) != d.burnHash.value then Turn(s, Fail(403))
      else Turn(s.(drops := s.drops - {id}, burned := s.burned + 1), BurnedNow)
  }

  function Kept(drops: map<string, Drop>, t: nat): map<string, Drop> {
    map id | id in drops && drops[id].expiresAt > t :: drops[id]
  }

  ghost function TotalsOf(s: Shelf): Response {
    Totals(|s.drops|, CountedBytes(s), s.created, s.consumed, s.expired, s.burned)
  }

  ghost function Sweeping(s: Shelf, t: nat): Shelf {
    var kept := Kept(s.drops, t);
    KeptAreFewer(s.drops, t);
    if |kept| == |s.drops| then s
    else s.(drops := kept, expired := s.expired + |s.drops| - |kept|, leaked := 0)
  }

  /** One request, at `t`; `u` is the clock when the handler reads it again. */
  ghost function Serve(hash: Hash, s: Shelf, r: Request, t: nat, u: nat): Turn {
    match r
    case Create(_, _, _, _, _) => Creation(s, r, t)
    case Take(id) => Taking(s, id, t)
    case Peek(id) =>
      if Live(s, id, t) then
        Turn(s, Peeked(s.drops[id].readsLeft, if s.drops[id].expiresAt > u then s.drops[id].expiresAt - u else 0, |s.drops[id].blob|))
      else Missed(s, id)
    case Burn(id, token) => Burning(hash, s, id, token, t)
    case Stats => Turn(s, TotalsOf(s))
    case Sweep => Turn(Sweeping(s, t), TotalsOf(Sweeping(s, t)))
  }

  lemma KeptAreFewer(drops: map<string, Drop>, t: nat)
    ensures |Kept(drops, t)| <= |drops|
  {
    SubsetSize(Kept(drops, t).Keys, drops.Keys);
    assert |Kept(drops, t)| == |Kept(drops, t).Keys| && |drops| == |drops.Keys|;
  }

  // --- what holds after any history -----------------------------------------------------

  predicate SoundDrop(d: Drop) {
    1 <= d.readsLeft <= MAX_READS && ValidBlob(d.blob)
  }

  ghost predicate Sound(s: Shelf) {
    && s.created == |s.drops| + s.consumed + s.expired + s.burned
    && |s.drops| <= MAX_DROPS
    && CountedBytes(s) <= MAX_TOTAL_BYTES
    && forall id :: id in s.drops ==> ValidId(id) && SoundDrop(s.drops[id])
  }

  lemma DropsChange(s: Shelf, id: string, d: Drop)
    ensures Sum(Sizes(s.drops[id := d])) == |d.blob| + Sum(Sizes(s.drops - {id}))
    ensures id in s.drops ==> HeldBytes(s) == |s.drops[id].blob| + Sum(Sizes(s.drops - {id}))
    ensures id !in s.drops ==> Sum(Sizes(s.drops - {id})) == HeldBytes(s)
    ensures |s.drops[id := d]| == |s.drops| + (if id in s.drops then 0 else 1)
    ensures id in s.drops ==> |s.drops - {id}| == |s.drops| - 1
  {
    SizesChange(s.drops, id, d);
    hide Sum, Sizes;
    SumWith(Sizes(s.drops), id, |d.blob|);
    MapSize(s.drops, id, d);
  }

  lemma SizesChange(drops: map<string, Drop>, id: string, d: Drop)
    ensures Sizes(drops[id := d]) == Sizes(drops)[id := |d.blob|]
    ensures Sizes(drops - {id}) == Sizes(drops) - {id}
    ensures id in Sizes(drops) <==> id in drops
    ensures id in drops ==> Sizes(drops)[id] == |drops[id].blob|
  {
  }

  lemma MissedIsSound(s: Shelf, id: string)
    requires Sound(s)
    ensures Sound(Missed(s, id).shelf)
  {
    hide Sum, Sizes, SoundDrop, ValidId;
    if id in s.drops {
      DropsChange(s, id, s.drops[id]);
    }
  }

  lemma WithoutIsSound(s: Shelf, id: string)
    requires Sound(s) && id in s.drops
    ensures Sound(s.(drops := s.drops - {id}, consumed := s.consumed + 1))
    ensures Sound(s.(drops := s.drops - {id}, burned := s.burned + 1))
  {
    hide Sum, Sizes, SoundDrop, ValidId;
    DropsChange(s, id, s.drops[id]);
  }

  lemma LessIsSound(s: Shelf, id: string)
    requires Sound(s) && id in s.drops && s.drops[id].readsLeft > 1
    ensures Sound(s.(drops := s.drops[id := s.drops[id].(readsLeft := s.drops[id].readsLeft - 1)]))
  {
    hide Sum, Sizes, ValidBlob, ValidId;
    DropsChange(s, id, s.drops[id].(readsLeft := s.drops[id].readsLeft - 1));
  }

  lemma TakingIsSound(s: Shelf, id: string, t: nat)
    requires Sound(s)
    ensures Sound(Taking(s, id, t).shelf)
  {
    hide Sound, Missed;
    MissedIsSound(s, id);
    if Live(s, id, t) {
      WithoutIsSound(s, id);
      if s.drops[id].readsLeft > 1 {
        LessIsSound(s, id);
      }
    }
  }

  lemma BurningIsSound(hash: Hash, s: Shelf, id: string, token: string, t: nat)
    requires Sound(s)
    ensures Sound(Burning(hash, s, id, token, t).shelf)
  {
    hide Sound, Missed;
    MissedIsSound(s, id);
    if Live(s, id, t) {
      WithoutIsSound(s, id);
    }
  }

  lemma CreationIsSound(s: Shelf, r: Request, t: nat)
    requires Sound(s) && r.Create?
    ensures Sound(Creation(s, r, t).shelf)
  {
    hide Sum, Sizes, ValidId, ValidBlob, HexHash, Lower;
    if WellFormed(r) && r.id !in s.drops {
      DropsChange(s, r.id, MadeBy(r, t));
    }
  }

  lemma SweepingIsSound(s: Shelf, t: nat)
    requires Sound(s)
    ensures Sound(Sweeping(s, t))
  {
    hide Sum, SoundDrop, ValidId;
    KeptAreFewer(s.drops, t);
    SumOfPart(Sizes(Kept(s.drops, t)), Sizes(s.drops));
  }

  lemma StepIsSound(hash: Hash, s: Shelf, r: Request, t: nat, u: nat)
    requires Sound(s)
    ensures Sound(Serve(hash, s, r, t, u).shelf)
  {
    hide Sound, Creation, Taking, Burning, Sweeping, Missed;
    match r
    case Create(_, _, _, _, _) => CreationIsSound(s, r, t);
    case Take(id) => TakingIsSound(s, id, t);
    case Peek(id) => MissedIsSound(s, id);
    case Burn(id, token) => BurningIsSound(hash, s, id, token, t);
    case Stats =>
    case Sweep => SweepingIsSound(s, t);
  }

  // --- how often a drop is shown --------------------------------------------------------

  datatype Moment = Moment(r: Request, t: nat, u: nat)

  ghost function After(hash: Hash, s: Shelf, ms: seq<Moment>): Shelf
    decreases |ms|
  {
    if ms == [] then s else After(hash, Serve(hash, s, ms[0].r, ms[0].t, ms[0].u).shelf, ms[1..])
  }

  predicate Shows(r: Request, resp: Response, id: string) {
    r.Take? && r.id == id && resp.Revealed?
  }

  /** How often a history reveals a drop. */
  ghost function Shown(hash: Hash, s: Shelf, ms: seq<Moment>, id: string): nat
    decreases |ms|
  {
    if ms == [] then 0
    else
      var turn := Serve(hash, s, ms[0].r, ms[0].t, ms[0].u);
      (if Shows(ms[0].r, turn.resp, id) then 1 else 0) + Shown(hash, turn.shelf, ms[1..], id)
  }

  /** The history does not create the id anew. */
  ghost predicate NotMade(hash: Hash, s: Shelf, ms: seq<Moment>, id: string)
    decreases |ms|
  {
    ms == []
    || (var turn := Serve(hash, s, ms[0].r, ms[0].t, ms[0].u);
        !(ms[0].r.Create? && ms[0].r.id == id && turn.resp.Made?) && NotMade(hash, turn.shelf, ms[1..], id))
  }

  function ReadsOf(s: Shelf, id: string): nat {
    if id in s.drops then s.drops[id].readsLeft else 0
  }

  lemma StepSpendsReads(hash: Hash, s: Shelf, r: Request, t: nat, u: nat, id: string)
    requires Sound(s)
    requires !(r.Create? && r.id == id && Serve(hash, s, r, t, u).resp.Made?)
    ensures var turn := Serve(hash, s, r, t, u);
            && ReadsOf(turn.shelf, id) + (if Shows(r, turn.resp, id) then 1 else 0) <= ReadsOf(s, id)
            && (id in turn.shelf.drops ==> id in s.drops && turn.shelf.drops[id].blob == s.drops[id].blob
                                           && ReadsOf(turn.shelf, id) + (if Shows(r, turn.resp, id) then 1 else 0) == ReadsOf(s, id))
            && (Shows(r, turn.resp, id) ==> id in s.drops && turn.resp.blob == s.drops[id].blob)
  {
    hide Sum, Sizes, ValidId, ValidBlob, WellFormed, MadeBy;
    assert id in s.drops ==> SoundDrop(s.drops[id]);
  }

  /** However it is asked for, a drop is revealed no more often than it has reads, until its id
      is created anew; as long as it is held, reads and reveals add up. */
  lemma {:induction false} ReadsAreSpent(hash: Hash, s: Shelf, ms: seq<Moment>, id: string)
    requires Sound(s) && NotMade(hash, s, ms, id)
    ensures var after := After(hash, s, ms);
            && Sound(after)
            && Shown(hash, s, ms, id) + ReadsOf(after, id) <= ReadsOf(s, id)
            && (id in after.drops ==> id in s.drops && Shown(hash, s, ms, id) + ReadsOf(after, id) == ReadsOf(s, id))
    decreases |ms|
  {
    hide Sound, Serve, ReadsOf, Shows;
    if ms != [] {
      StepIsSound(hash, s, ms[0].r, ms[0].t, ms[0].u);
      StepSpendsReads(hash, s, ms[0].r, ms[0].t, ms[0].u, id);
      ReadsAreSpent(hash, Serve(hash, s, ms[0].r, ms[0].t, ms[0].u).shelf, ms[1..], id);
    }
  }

  /** So a drop made with N reads is revealed at most N times. */
  lemma AtMostItsReads(hash: Hash, s: Shelf, r: Request, t: nat, u: nat, ms: seq<Moment>)
    requires Sound(s) && r.Create? && Serve(hash, s, r, t, u).resp.Made?
    requires NotMade(hash, Serve(hash, s, r, t, u).shelf, ms, r.id)
    ensures Shown(hash, Serve(hash, s, r, t, u).shelf, ms, r.id) <= Or(r.times, 1) <= MAX_READS
  {
    hide Sound, NotMade, Shown;
    StepIsSound(hash, s, r, t, u);
    ReadsAreSpent(hash, Serve(hash, s, r, t, u).shelf, ms, r.id);
  }

  // --- what leaks -----------------------------------------------------------------------

  /** Only a sweep that removes something takes leaked bytes off the count; until then they
      stay, and a drop that would fit is refused for them. */
  lemma LeakStays(hash: Hash, s: Shelf, r: Request, t: nat, u: nat)
    ensures var s' := Serve(hash, s, r, t, u).shelf;
            s'.leaked < s.leaked <==> r.Sweep? && s.leaked > 0 && |Kept(s.drops, t)| < |s.drops|
    ensures r.Create? && WellFormed(r) && |s.drops| < MAX_DROPS && HeldBytes(s) + |r.blob.value| <= MAX_TOTAL_BYTES ==>
              (Serve(hash, s, r, t, u).resp == Fail(507) <==> s.leaked > MAX_TOTAL_BYTES - HeldBytes(s) - |r.blob.value|)
  {
    hide Sum, Sizes, WellFormed, MadeBy, Kept, ValidId;
    KeptAreFewer(s.drops, t);
  }

  const EMPTY := Shelf(map[], 0, 0, 0, 0, 0)

  const SOME_ID := "aaaaaaaaaaaaaaaa"
  const ROUNDS := MAX_TOTAL_BYTES / MAX_BLOB

  function Largest(): (r: Request)
    ensures r.Create? && WellFormed(r) && |r.blob.value| == MAX_BLOB
  {
    Create(SOME_ID, Some(seq(MAX_BLOB, _ => 'a')), None, Some(MIN_TTL), None)
  }

  /** The largest drop made, left to expire and asked for, `n` times over. */
  function Wasted(n: nat): seq<Moment> {
    if n == 0 then []
    else
      var t := (n - 1) * MIN_TTL;
      Wasted(n - 1) + [Moment(Largest(), t, t), Moment(Take(SOME_ID), t + MIN_TTL, t + MIN_TTL)]
  }

  lemma {:induction false} AfterTwo(hash: Hash, s: Shelf, ms: seq<Moment>, x: Moment, y: Moment)
    ensures After(hash, s, ms + [x, y])
         == (var s' := Serve(hash, After(hash, s, ms), x.r, x.t, x.u).shelf; Serve(hash, s', y.r, y.t, y.u).shelf)
    decreases |ms|
  {
    hide Serve;
    if ms == [] {
      assert [] + [x, y] == [x, y] && [x, y][1..] == [y] && [y][1..] == [];
      var s' := Serve(hash, s, x.r, x.t, x.u).shelf;
      assert After(hash, s', [y]) == After(hash, Serve(hash, s', y.r, y.t, y.u).shelf, []);
    } else {
      assert (ms + [x, y])[1..] == ms[1..] + [x, y];
      AfterTwo(hash, Serve(hash, s, ms[0].r, ms[0].t, ms[0].u).shelf, ms[1..], x, y);
    }
  }

  lemma {:induction false} WasteLeaks(hash: Hash, n: nat)
    requires n <= ROUNDS
    ensures After(hash, EMPTY, Wasted(n)) == Shelf(map[], n * MAX_BLOB, n, 0, n, 0)
  {
    hide Serve, After, Largest;
    if n == 0 {
      NoMoments(hash);
    } else {
      WasteLeaks(hash, n - 1);
      var t := (n - 1) * MIN_TTL;
      AfterTwo(hash, EMPTY, Wasted(n - 1), Moment(Largest(), t, t), Moment(Take(SOME_ID), t + MIN_TTL, t + MIN_TTL));
      OneWaste(hash, n - 1, t);
    }
  }

  lemma NoMoments(hash: Hash)
    ensures After(hash, EMPTY, []) == EMPTY
  {
  }

  lemma OneWaste(hash: Hash, n: nat, t: nat)
    requires n < ROUNDS
    ensures var s := Shelf(map[], n * MAX_BLOB, n, 0, n, 0);
            var s' := Serve(hash, s, Largest(), t, t).shelf;
            Serve(hash, s', Take(SOME_ID), t + MIN_TTL, t + MIN_TTL).shelf == Shelf(map[], (n + 1) * MAX_BLOB, n + 1, 0, n + 1, 0)
  {
    var s := Shelf(map[], n * MAX_BLOB, n, 0, n, 0);
    assert Sizes(s.drops) == map[];
    assert (n + 1) * MAX_BLOB <= MAX_TOTAL_BYTES;
    var r := Largest();
    hide WellFormed, Largest, Sizes;
    var d := MadeBy(r, t);
    assert Serve(hash, s, r, t, t).shelf == s.(drops := map[r.id := d], created := n + 1);
    assert map[SOME_ID := d] - {SOME_ID} == map[];
  }

  /** So it happens: a shelf that holds nothing, reached by requests anybody can make, refuses
      every drop. */
  lemma AnEmptyShelfIsFull(hash: Hash, n: nat, r: Request, t: nat, u: nat)
    requires n == ROUNDS && r.Create? && WellFormed(r)
    ensures var s := After(hash, EMPTY, Wasted(n));
            s.drops == map[] && HeldBytes(s) == 0 && Sound(s) && Serve(hash, s, r, t, u).resp == Fail(507)
  {
    hide WellFormed, Sum, Wasted, After, Serve, Sound;
    WasteLeaks(hash, n);
    EmptyIsSound();
    EveryShelfIsSound(hash, Wasted(n), EMPTY);
    var s := After(hash, EMPTY, Wasted(n));
    assert s.drops == EMPTY.drops;
    LeakStays(hash, s, r, t, u);
    WellFormedFits(r);
  }

  lemma WellFormedFits(r: Request)
    requires r.Create? && WellFormed(r)
    ensures 0 < |r.blob.value| <= MAX_BLOB
  {
  }

  lemma {:induction false} EveryShelfIsSound(hash: Hash, ms: seq<Moment>, s: Shelf)
    requires Sound(s)
    ensures Sound(After(hash, s, ms))
    decreases |ms|
  {
    hide Sound, Serve;
    if ms != [] {
      StepIsSound(hash, s, ms[0].r, ms[0].t, ms[0].u);
      EveryShelfIsSound(hash, ms[1..], Serve(hash, s, ms[0].r, ms[0].t, ms[0].u).shelf);
    }
  }

  lemma EmptyIsSound()
    ensures Sound(EMPTY) && HeldBytes(EMPTY) == 0
  {
    assert Sizes(EMPTY.drops) == map[];
  }
}
