/** backchannel/src/httpd.rs, `poll`: each poll adds what has come to the buffer, refuses a buffer
    past its cap, and takes one request. */
module Polling {
  import opened Common
  import opened HttpParse
  import opened Arrival

  function Cap(maxBody: nat): nat {
    MAX_HEADER_BYTES + maxBody
  }

  /** A connection polled again and again, each time with what its reads gave. The cap is looked
      at after each read, and a buffer only grows by reads. */
  function Session(b: Bytes, polls: seq<Bytes>, maxBody: nat, utf8: Utf8): Outcome
    decreases |polls|
  {
    if polls == [] then Outcome([], Waiting(b))
    else if |b + polls[0]| > Cap(maxBody) then Outcome([], Refused(413))
    else
      match TryParse(b + polls[0], maxBody, utf8)
      case Partial(_) => Session(b + polls[0], polls[1..], maxBody, utf8)
      case Bad(code) => Outcome([], Refused(code))
      case Complete(req, left) => Then([req], Session(left, polls[1..], maxBody, utf8))
  }

  /** And polled on, once nothing more comes, until nothing more is taken. */
  function Served(b: Bytes, polls: seq<Bytes>, maxBody: nat, utf8: Utf8): Outcome {
    var o := Session(b, polls, maxBody, utf8);
    match o.end
    case Refused(_) => o
    case Waiting(left) => Then(o.reqs, Drain(left, maxBody, utf8))
  }

  /** Some poll finds more than the cap in the buffer. */
  predicate Overflows(b: Bytes, polls: seq<Bytes>, maxBody: nat, utf8: Utf8)
    decreases |polls|
  {
    polls != [] &&
    (|b + polls[0]| > Cap(maxBody) ||
     match TryParse(b + polls[0], maxBody, utf8)
     case Partial(_) => Overflows(b + polls[0], polls[1..], maxBody, utf8)
     case Bad(_) => false
     case Complete(_, left) => Overflows(left, polls[1..], maxBody, utf8))
  }

  /** `b` and the polls to come give what the whole stream gives, or the first of its requests and
      a refusal, just where the buffer overflows. */
  ghost predicate Agrees(served: Outcome, all: Outcome, over: bool) {
    if over then served.end == Refused(413) && served.reqs <= all.reqs else served == all
  }

  lemma AgreesOn(req: Request, served: Outcome, all: Outcome, over: bool)
    requires Agrees(served, all, over)
    ensures Agrees(Then([req], served), Then([req], all), over)
  {
  }

  lemma ServedNext(b: Bytes, polls: seq<Bytes>, maxBody: nat, utf8: Utf8, req: Request, left: Bytes)
    requires polls != [] && |b + polls[0]| <= Cap(maxBody) && TryParse(b + polls[0], maxBody, utf8) == Complete(req, left)
    ensures Served(b, polls, maxBody, utf8) == Then([req], Served(left, polls[1..], maxBody, utf8))
  {
    hide TryParse, Drain;
    var o := Session(left, polls[1..], maxBody, utf8);
    if o.end.Waiting? {
      ThenThen([req], o.reqs, Drain(o.end.left, maxBody, utf8));
    }
  }

  lemma {:induction false} ServedAgrees(b: Bytes, polls: seq<Bytes>, maxBody: nat, utf8: Utf8)
    requires Clear(b + Flat(polls), maxBody, utf8)
    ensures Agrees(Served(b, polls, maxBody, utf8), Drain(b + Flat(polls), maxBody, utf8), Overflows(b, polls, maxBody, utf8))
    decreases |polls|
  {
    hide TryParse, HeadEnd, Brink, Then;
    if polls == [] {
      assert b + Flat(polls) == b;
      ThenThen([], [], Drain(b, maxBody, utf8));
    } else {
      var now, rest := b + polls[0], Flat(polls[1..]);
      assert b + Flat(polls) == now + rest;
      if |now| <= Cap(maxBody) {
        match TryParse(now, maxBody, utf8)
        case Partial(_) => ServedAgrees(now, polls[1..], maxBody, utf8);
        case Bad(_) => BadStays(now, rest, maxBody, utf8);
        case Complete(req, left) =>
          CompleteStays(now, rest, maxBody, utf8);
          LeftIsShorter(now + rest, maxBody, utf8);
          ServedAgrees(left, polls[1..], maxBody, utf8);
          ServedNext(b, polls, maxBody, utf8, req, left);
          AgreesOn(req, Served(left, polls[1..], maxBody, utf8), Drain(left + rest, maxBody, utf8), Overflows(left, polls[1..], maxBody, utf8));
      }
    }
  }

  lemma {:induction false} SmallNeverOverflows(b: Bytes, polls: seq<Bytes>, maxBody: nat, utf8: Utf8)
    requires |b + Flat(polls)| <= Cap(maxBody)
    ensures !Overflows(b, polls, maxBody, utf8)
    decreases |polls|
  {
    hide TryParse;
    if polls != [] {
      var now, rest := b + polls[0], Flat(polls[1..]);
      assert b + Flat(polls) == now + rest;
      match TryParse(now, maxBody, utf8)
      case Partial(_) => SmallNeverOverflows(now, polls[1..], maxBody, utf8);
      case Bad(_) =>
      case Complete(_, left) =>
        LeftIsShorter(now, maxBody, utf8);
        SmallNeverOverflows(left, polls[1..], maxBody, utf8);
    }
  }

  /** Some two ways for the stream to come to the polls are served differently. */
  ghost predicate PollingMatters(s: Bytes, maxBody: nat, utf8: Utf8) {
    exists p, q :: Flat(p) == s && Flat(q) == s && Served([], p, maxBody, utf8) != Served([], q, maxBody, utf8)
  }

  lemma AtOnce(s: Bytes, maxBody: nat, utf8: Utf8)
    ensures Flat([s]) == s
    ensures Served([], [s], maxBody, utf8) == if |s| > Cap(maxBody) then Outcome([], Refused(413)) else Drain(s, maxBody, utf8)
  {
    hide TryParse;
    assert [s][1..] == [] && s + Flat([]) == s && [] + s == s;
    LeftIsShorter(s, maxBody, utf8);
    ThenThen([], [], Drain(s, maxBody, utf8));
    if |s| <= Cap(maxBody) {
      var p := TryParse(s, maxBody, utf8);
      if p.Complete? {
        assert Session(p.left, [], maxBody, utf8) == Outcome([], Waiting(p.left));
        ServedNext([], [s], maxBody, utf8, p.req, p.left);
        ThenThen([], [], Drain(p.left, maxBody, utf8));
      } else {
        assert Session(s, [], maxBody, utf8) == Outcome([], Waiting(s));
      }
    }
  }

  // --- a stream within the cap ------------------------------------------------------------

  lemma ShortAndClear(s: Bytes, polls: seq<Bytes>, maxBody: nat, utf8: Utf8)
    requires |s| <= Cap(maxBody) && Clear(s, maxBody, utf8) && Flat(polls) == s
    ensures Served([], polls, maxBody, utf8) == Drain(s, maxBody, utf8)
  {
    assert [] + Flat(polls) == s;
    hide Clear, Drain, Served, Overflows;
    ServedAgrees([], polls, maxBody, utf8);
    SmallNeverOverflows([], polls, maxBody, utf8);
  }

  /** Cut within the blank line of a head on the brink, the stream is refused there. */
  lemma {:induction false} UnclearShows(s: Bytes, maxBody: nat, utf8: Utf8) returns (polls: seq<Bytes>)
    requires |s| <= Cap(maxBody) && !Clear(s, maxBody, utf8)
    ensures Flat(polls) == s && Served([], polls, maxBody, utf8) != Drain(s, maxBody, utf8)
    decreases |s|
  {
    hide TryParse, HeadEnd;
    if HeadEnd(s).Some? && Brink(HeadEnd(s).value) {
      polls := CutShort(s);
      CutIsRefused(s, maxBody, utf8);
      NotRefused(s, maxBody, utf8);
    } else {
      var p := TryParse(s, maxBody, utf8);
      LeftIsShorter(s, maxBody, utf8);
      var inner := UnclearShows(p.left, maxBody, utf8);
      TakenIsComplete(s, maxBody, utf8);
      var taken := s[..|s| - |p.left|];
      polls := [taken] + inner;
      assert polls[1..] == inner && [] + taken == taken;
      ServedNext([], polls, maxBody, utf8, p.req, []);
      ThenDiffers([p.req], Served([], inner, maxBody, utf8), Drain(p.left, maxBody, utf8));
    }
  }

  function CutShort(s: Bytes): seq<Bytes> {
    if |s| <= MAX_HEADER_BYTES then [s] else [s[..MAX_HEADER_BYTES + 1], s[MAX_HEADER_BYTES + 1..]]
  }

  lemma CutIsRefused(s: Bytes, maxBody: nat, utf8: Utf8)
    requires HeadEnd(s).Some? && Brink(HeadEnd(s).value) && maxBody > 0
    ensures Flat(CutShort(s)) == s && Served([], CutShort(s), maxBody, utf8) == Outcome([], Refused(431))
  {
    hide TryParse, HeadEnd, Brink;
    BrinkBreaks(s, maxBody, utf8);
    var a, x := s[..MAX_HEADER_BYTES + 1], s[MAX_HEADER_BYTES + 1..];
    TwoPieces(a, x);
    assert [] + a == a && s == a + x;
  }

  lemma NotRefused(s: Bytes, maxBody: nat, utf8: Utf8)
    requires HeadEnd(s).Some? && Brink(HeadEnd(s).value)
    ensures Drain(s, maxBody, utf8) != Outcome([], Refused(431))
  {
    hide TryParse, HeadEnd, Brink;
    BrinkBreaks(s, maxBody, utf8);
    LeftIsShorter(s, maxBody, utf8);
  }

  // --- a stream past the cap --------------------------------------------------------------

  /** The first bytes up to the cap are taken or refused for something else than their number. */
  predicate Decided(s: Bytes, maxBody: nat, utf8: Utf8)
    requires |s| > Cap(maxBody)
  {
    var p := TryParse(s[..Cap(maxBody)], maxBody, utf8);
    p.Complete? || (p.Bad? && p.code != 413)
  }

  predicate OnBrink(s: Bytes) {
    HeadEnd(s).Some? && Brink(HeadEnd(s).value)
  }

  /** What comes before the cap is then no more decided than what reaches it. */
  lemma PrefixUndecided(now: Bytes, s: Bytes, maxBody: nat, utf8: Utf8)
    requires now <= s && |now| <= Cap(maxBody) < |s| && !Decided(s, maxBody, utf8) && (OnBrink(s) ==> maxBody == 0)
    ensures TryParse(now, maxBody, utf8).Partial? || TryParse(now, maxBody, utf8) == Bad(413)
  {
    hide TryParse, HeadEnd;
    var a := s[..Cap(maxBody)];
    var x := a[|now|..];
    assert a == now + x && s == a + s[Cap(maxBody)..];
    EndStays(a, s[Cap(maxBody)..]);
    match TryParse(now, maxBody, utf8)
    case Partial(_) =>
    case Complete(_, _) => CompleteStays(now, x, maxBody, utf8);
    case Bad(_) => BadStays(now, x, maxBody, utf8);
  }

  lemma {:induction false} AllRefused(b: Bytes, polls: seq<Bytes>, s: Bytes, maxBody: nat, utf8: Utf8)
    requires b + Flat(polls) == s && |b| <= Cap(maxBody) < |s| && !Decided(s, maxBody, utf8) && (OnBrink(s) ==> maxBody == 0)
    ensures Session(b, polls, maxBody, utf8) == Outcome([], Refused(413))
    decreases |polls|
  {
    hide TryParse, Decided, OnBrink;
    assert polls == [] ==> b + Flat(polls) == b;
    if polls != [] {
      var now, rest := b + polls[0], Flat(polls[1..]);
      assert s == now + rest;
      if |now| <= Cap(maxBody) {
        PrefixUndecided(now, s, maxBody, utf8);
        if TryParse(now, maxBody, utf8).Partial? {
          AllRefused(now, polls[1..], s, maxBody, utf8);
        }
      }
    }
  }

  lemma DecidedShows(s: Bytes, maxBody: nat, utf8: Utf8)
    requires |s| > Cap(maxBody) && Decided(s, maxBody, utf8)
    ensures var polls := [s[..Cap(maxBody)], s[Cap(maxBody)..]];
            Flat(polls) == s && Served([], polls, maxBody, utf8) != Outcome([], Refused(413))
  {
    hide TryParse, Drain;
    var a, x := s[..Cap(maxBody)], s[Cap(maxBody)..];
    TwoPieces(a, x);
    assert [] + a == a && s == a + x;
    if TryParse(a, maxBody, utf8).Complete? {
      ServedNext([], [a, x], maxBody, utf8, TryParse(a, maxBody, utf8).req, TryParse(a, maxBody, utf8).left);
    }
  }

  // --- when it matters --------------------------------------------------------------------

  /** What tells, before a byte is served, whether it matters how the stream comes to the polls. */
  predicate Sensitive(s: Bytes, maxBody: nat, utf8: Utf8) {
    if |s| <= Cap(maxBody) then !Clear(s, maxBody, utf8)
    else Decided(s, maxBody, utf8) || (OnBrink(s) && maxBody > 0)
  }

  /** A stream that fits the buffer is served alike exactly if no head is on the brink; a longer
      one exactly if what fits is neither a request nor refused but as too large, and its first head
      is not on the brink: then it is refused as too large in whatever pieces it comes. */
  lemma PollingMattersIff(s: Bytes, maxBody: nat, utf8: Utf8)
    ensures PollingMatters(s, maxBody, utf8) <==> Sensitive(s, maxBody, utf8)
  {
    AtOnce(s, maxBody, utf8);
    if Sensitive(s, maxBody, utf8) {
      var polls := SensitiveShows(s, maxBody, utf8);
      assert Flat(polls) == s && Flat([s]) == s;
    } else {
      forall p | Flat(p) == s ensures Served([], p, maxBody, utf8) == Served([], [s], maxBody, utf8) {
        InsensitiveIsAtOnce(s, p, maxBody, utf8);
      }
    }
  }

  lemma SensitiveShows(s: Bytes, maxBody: nat, utf8: Utf8) returns (polls: seq<Bytes>)
    requires Sensitive(s, maxBody, utf8)
    ensures Flat(polls) == s && Served([], polls, maxBody, utf8) != Served([], [s], maxBody, utf8)
  {
    AtOnce(s, maxBody, utf8);
    hide Clear, Drain, Served, Decided;
    if |s| <= Cap(maxBody) {
      polls := UnclearShows(s, maxBody, utf8);
    } else if Decided(s, maxBody, utf8) {
      DecidedShows(s, maxBody, utf8);
      polls := [s[..Cap(maxBody)], s[Cap(maxBody)..]];
    } else {
      CutIsRefused(s, maxBody, utf8);
      polls := CutShort(s);
    }
  }

  lemma InsensitiveIsAtOnce(s: Bytes, polls: seq<Bytes>, maxBody: nat, utf8: Utf8)
    requires !Sensitive(s, maxBody, utf8) && Flat(polls) == s
    ensures Served([], polls, maxBody, utf8) == Served([], [s], maxBody, utf8)
  {
    AtOnce(s, maxBody, utf8);
    hide Clear, Drain, Session, Decided;
    if |s| <= Cap(maxBody) {
      ShortAndClear(s, polls, maxBody, utf8);
    } else {
      assert [] + Flat(polls) == s;
      AllRefused([], polls, s, maxBody, utf8);
    }
  }
}
