/** That it does not matter how the bytes of pipelined requests arrive, and when it does. */
module Arrival {
  import opened Common
  import opened HttpParse

  datatype End = Waiting(left: Bytes) | Refused(code: nat)

  datatype Outcome = Outcome(reqs: seq<Request>, end: End)

  /** Requests taken off a buffer until none is whole or one is refused. */
  function Drain(b: Bytes, maxBody: nat, utf8: Utf8): Outcome
    decreases |b|
  {
    match TryParse(b, maxBody, utf8)
    case Partial(_) => Outcome([], Waiting(b))
    case Bad(code) => Outcome([], Refused(code))
    case Complete(req, left) =>
      LeftIsShorter(b, maxBody, utf8);
      Then([req], Drain(left, maxBody, utf8))
  }

  function Then(reqs: seq<Request>, o: Outcome): Outcome {
    Outcome(reqs + o.reqs, o.end)
  }

  /** A connection fed piece by piece; one that was refused reads no more. */
  function Feed(b: Bytes, pieces: seq<Bytes>, maxBody: nat, utf8: Utf8): Outcome
    decreases |pieces|
  {
    if pieces == [] then Outcome([], Waiting(b))
    else
      var o := Drain(b + pieces[0], maxBody, utf8);
      match o.end
      case Refused(_) => o
      case Waiting(left) => Then(o.reqs, Feed(left, pieces[1..], maxBody, utf8))
  }

  /** A head whose blank line begins in the last three places the limit allows: whole it is
      taken, but all of it short of the last byte is already too long. */
  predicate Brink(h: nat) {
    MAX_HEADER_BYTES - 2 <= h <= MAX_HEADER_BYTES
  }

  /** No head of the stream is on the brink. */
  predicate Clear(b: Bytes, maxBody: nat, utf8: Utf8)
    decreases |b|
  {
    && (HeadEnd(b).Some? ==> !Brink(HeadEnd(b).value))
    && var p := TryParse(b, maxBody, utf8);
       (p.Complete? ==> (LeftIsShorter(b, maxBody, utf8); Clear(p.left, maxBody, utf8)))
  }

  lemma LeftIsShorter(b: Bytes, maxBody: nat, utf8: Utf8)
    ensures TryParse(b, maxBody, utf8).Complete? ==> |TryParse(b, maxBody, utf8).left| < |b|
  {
    hide ReadHead, Finish;
  }

  lemma {:induction false} EndStays(b: Bytes, x: Bytes)
    ensures HeadEnd(b).Some? ==> HeadEnd(b + x) == HeadEnd(b)
  {
    if |b| >= 4 {
      assert (b + x)[1..] == b[1..] + x;
      EndStays(b[1..], x);
    }
  }

  /** A blank line that more bytes bring to light begins within the last three bytes at the
      earliest. */
  lemma {:induction false} EndComes(b: Bytes, x: Bytes)
    requires HeadEnd(b).None? && HeadEnd(b + x).Some?
    ensures HeadEnd(b + x).value + 3 >= |b|
  {
    if |b| >= 4 {
      assert (b + x)[1..] == b[1..] + x;
      EndComes(b[1..], x);
    }
  }

  /** A request that is whole stays the same request, with the extra bytes left over. */
  lemma CompleteStays(b: Bytes, x: Bytes, maxBody: nat, utf8: Utf8)
    requires TryParse(b, maxBody, utf8).Complete?
    ensures TryParse(b + x, maxBody, utf8) == Complete(TryParse(b, maxBody, utf8).req, TryParse(b, maxBody, utf8).left + x)
  {
    hide ReadHead, Finish, HeadEnd;
    EndStays(b, x);
    var h := HeadEnd(b).value;
    assert (b + x)[..h] == b[..h];
    var head := ReadHead(b[..h], maxBody, utf8).value;
    var end := h + 4 + head.fields.length;
    assert (b + x)[h + 4..end] == b[h + 4..end];
    assert (b + x)[end..] == b[end..] + x;
  }

  /** A refusal stays one too, off the brink. */
  lemma BadStays(b: Bytes, x: Bytes, maxBody: nat, utf8: Utf8)
    requires TryParse(b, maxBody, utf8).Bad?
    requires HeadEnd(b + x).Some? ==> !Brink(HeadEnd(b + x).value)
    ensures TryParse(b + x, maxBody, utf8) == TryParse(b, maxBody, utf8)
  {
    hide ReadHead, Finish, HeadEnd;
    EndStays(b, x);
    if HeadEnd(b).Some? {
      var h := HeadEnd(b).value;
      assert (b + x)[..h] == b[..h];
      if h <= MAX_HEADER_BYTES && ReadHead(b[..h], maxBody, utf8).Ok? {
        var end := h + 4 + ReadHead(b[..h], maxBody, utf8).value.fields.length;
        if |b| >= end {
          assert (b + x)[h + 4..end] == b[h + 4..end];
        }
      }
    } else if HeadEnd(b + x).Some? {
      EndComes(b, x);
    }
  }

  lemma ThenThen(a: seq<Request>, b: seq<Request>, o: Outcome)
    ensures Then(a, Then(b, o)) == Then(a + b, o) && Then([], o) == o
  {
  }

  /** Draining now and later is draining once. */
  lemma {:induction false} DrainInTwo(b: Bytes, x: Bytes, maxBody: nat, utf8: Utf8)
    requires Clear(b + x, maxBody, utf8)
    ensures var o := Drain(b, maxBody, utf8);
            match o.end
            case Refused(_) => Drain(b + x, maxBody, utf8) == o
            case Waiting(left) => Drain(b + x, maxBody, utf8) == Then(o.reqs, Drain(left + x, maxBody, utf8)) && Clear(left + x, maxBody, utf8)
    decreases |b|
  {
    hide TryParse, HeadEnd, Brink;
    match TryParse(b, maxBody, utf8)
    case Partial(_) =>
      ThenThen([], [], Drain(b + x, maxBody, utf8));
    case Bad(_) =>
      BadStays(b, x, maxBody, utf8);
    case Complete(req, left) =>
      CompleteStays(b, x, maxBody, utf8);
      LeftIsShorter(b, maxBody, utf8);
      LeftIsShorter(b + x, maxBody, utf8);
      DrainInTwo(left, x, maxBody, utf8);
      var o := Drain(left, maxBody, utf8);
      if o.end.Waiting? {
        ThenThen([req], o.reqs, Drain(o.end.left + x, maxBody, utf8));
      }
  }

  lemma {:induction false} FeedIsDrain(b: Bytes, pieces: seq<Bytes>, maxBody: nat, utf8: Utf8)
    requires TryParse(b, maxBody, utf8).Partial? && Clear(b + Flat(pieces), maxBody, utf8)
    ensures Feed(b, pieces, maxBody, utf8) == Drain(b + Flat(pieces), maxBody, utf8)
    decreases |pieces|
  {
    hide TryParse, Clear;
    if pieces == [] {
      assert b + Flat(pieces) == b;
    } else {
      var rest := Flat(pieces[1..]);
      assert b + Flat(pieces) == b + pieces[0] + rest;
      DrainInTwo(b + pieces[0], rest, maxBody, utf8);
      var o := Drain(b + pieces[0], maxBody, utf8);
      if o.end.Waiting? {
        WaitingIsPartial(b + pieces[0], maxBody, utf8);
        FeedIsDrain(o.end.left, pieces[1..], maxBody, utf8);
      }
    }
  }

  lemma {:induction false} WaitingIsPartial(b: Bytes, maxBody: nat, utf8: Utf8)
    ensures Drain(b, maxBody, utf8).end.Waiting? ==> TryParse(Drain(b, maxBody, utf8).end.left, maxBody, utf8).Partial?
    decreases |b|
  {
    hide TryParse;
    if TryParse(b, maxBody, utf8).Complete? {
      LeftIsShorter(b, maxBody, utf8);
      WaitingIsPartial(TryParse(b, maxBody, utf8).left, maxBody, utf8);
    }
  }

  // --- on the brink ---------------------------------------------------------------------

  /** Cut within its blank line, a head on the brink is refused; whole, it is not refused for
      its length. */
  lemma BrinkBreaks(b: Bytes, maxBody: nat, utf8: Utf8)
    requires HeadEnd(b).Some? && Brink(HeadEnd(b).value)
    ensures MAX_HEADER_BYTES + 1 <= |b|
    ensures TryParse(b[..MAX_HEADER_BYTES + 1], maxBody, utf8) == Bad(431)
    ensures TryParse(b, maxBody, utf8) != Bad(431)
  {
    hide ReadHead, Finish, HeadEnd;
    var a, x := b[..MAX_HEADER_BYTES + 1], b[MAX_HEADER_BYTES + 1..];
    assert b == a + x;
    EndStays(a, x);
  }

  /** The bytes a request took, alone, are that request. */
  lemma TakenIsComplete(b: Bytes, maxBody: nat, utf8: Utf8)
    requires TryParse(b, maxBody, utf8).Complete?
    ensures var p := TryParse(b, maxBody, utf8);
            && |p.left| <= |b| && b == b[..|b| - |p.left|] + p.left
            && TryParse(b[..|b| - |p.left|], maxBody, utf8) == Complete(p.req, [])
  {
    hide ReadHead, Finish, HeadEnd;
    var h := HeadEnd(b).value;
    var head := ReadHead(b[..h], maxBody, utf8).value;
    var end := h + 4 + head.fields.length;
    var a := b[..end];
    assert b == a + b[end..];
    EndStays(a, b[end..]);
    if HeadEnd(a).None? {
      EndIsIn(b, end);
    }
    assert a[..h] == b[..h] && a[h + 4..end] == b[h + 4..end] && a[end..] == [];
  }

  lemma {:induction false} EndIsIn(b: Bytes, end: nat)
    requires HeadEnd(b).Some? && HeadEnd(b).value + 4 <= end <= |b|
    ensures HeadEnd(b[..end]) == HeadEnd(b)
  {
    if HeadEnd(b).value > 0 {
      assert b[..end][1..] == b[1..][..end - 1];
      EndIsIn(b[1..], end - 1);
    }
  }

  /** A place to cut the stream so that it makes a difference. */
  lemma {:induction false} BrinkShows(b: Bytes, maxBody: nat, utf8: Utf8) returns (cut: nat)
    requires !Clear(b, maxBody, utf8)
    ensures cut <= |b| && Drain(b[..cut], maxBody, utf8).end.Refused? && Drain(b[..cut], maxBody, utf8) != Drain(b, maxBody, utf8)
    decreases |b|
  {
    hide TryParse, HeadEnd, Brink;
    if HeadEnd(b).Some? && Brink(HeadEnd(b).value) {
      BrinkBreaks(b, maxBody, utf8);
      cut := MAX_HEADER_BYTES + 1;
      LeftIsShorter(b, maxBody, utf8);
      assert Drain(b[..cut], maxBody, utf8) == Outcome([], Refused(431));
    } else {
      var p := TryParse(b, maxBody, utf8);
      LeftIsShorter(b, maxBody, utf8);
      var inner := BrinkShows(p.left, maxBody, utf8);
      TakenIsComplete(b, maxBody, utf8);
      var taken := b[..|b| - |p.left|];
      CompleteStays(taken, p.left[..inner], maxBody, utf8);
      cut := |taken| + inner;
      assert b[..cut] == taken + p.left[..inner] && [] + p.left[..inner] == p.left[..inner];
      LeftIsShorter(b[..cut], maxBody, utf8);
      ThenDiffers([p.req], Drain(p.left[..inner], maxBody, utf8), Drain(p.left, maxBody, utf8));
    }
  }

  lemma ThenDiffers(reqs: seq<Request>, a: Outcome, b: Outcome)
    ensures a != b ==> Then(reqs, a) != Then(reqs, b)
  {
    assert Then(reqs, a).reqs[|reqs|..] == a.reqs && Then(reqs, b).reqs[|reqs|..] == b.reqs;
  }

  /** Pipelined requests come out the same however the stream is cut up, byte by byte or all
      at once, exactly when none of its heads is on the brink of the limit. */
  lemma ArrivalDoesNotMatterIff(s: Bytes, maxBody: nat, utf8: Utf8)
    ensures Clear(s, maxBody, utf8)
       <==> forall pieces :: Flat(pieces) == s ==> Feed([], pieces, maxBody, utf8) == Drain(s, maxBody, utf8)
  {
    NothingIsPartial(maxBody, utf8);
    hide TryParse, Clear, Drain, Feed;
    if Clear(s, maxBody, utf8) {
      forall pieces | Flat(pieces) == s ensures Feed([], pieces, maxBody, utf8) == Drain(s, maxBody, utf8) {
        assert [] + Flat(pieces) == s;
        FeedIsDrain([], pieces, maxBody, utf8);
      }
    } else {
      var cut := BrinkShows(s, maxBody, utf8);
      var pieces := [s[..cut], s[cut..]];
      assert Flat(pieces) == s by {
        TwoPieces(s[..cut], s[cut..]);
      }
      FeedRefused(s[..cut], s[cut..], maxBody, utf8);
      assert Feed([], pieces, maxBody, utf8) != Drain(s, maxBody, utf8);
    }
  }

  lemma NothingIsPartial(maxBody: nat, utf8: Utf8)
    ensures TryParse([], maxBody, utf8).Partial?
  {
  }

  lemma TwoPieces(a: Bytes, b: Bytes)
    ensures Flat([a, b]) == a + b
  {
    assert [a, b][1..] == [b] && [b][1..] == [];
    assert Flat([b]) == b + [] == b;
  }

  lemma FeedRefused(a: Bytes, b: Bytes, maxBody: nat, utf8: Utf8)
    requires Drain(a, maxBody, utf8).end.Refused?
    ensures Feed([], [a, b], maxBody, utf8) == Drain(a, maxBody, utf8)
  {
    assert [] + a == a;
  }
}
