/** IRC/src/server.rs: what a command leaves of every client, of every channel and of every seat in
    one, told from what was there before. */
module IrcRecords {
  import opened Ascii
  import opened Common
  import Decimals
  import opened IrcModes
  import opened IrcState
  import opened SetSize
  import opened Utf8

  // --- changes of modes -----------------------------------------------------------------

  /** What a change is about. */
  datatype Subject = TopicLock | NoExternal | TheKey | TheLimit | OpOf(cid: nat) | VoiceOf(cid: nat)

  function SubjectOf(c: Change): Subject {
    match c
    case Flag(l, _) => if l == 't' then TopicLock else NoExternal
    case Key(_) => TheKey
    case Limit(_) => TheLimit
    case Priv(l, _, cid, _) => if l == 'o' then OpOf(cid) else VoiceOf(cid)
  }

  /** The last change about a subject. */
  function LastWord(cs: seq<Change>, s: Subject): Option<Change>
    decreases |cs|
  {
    if cs == [] then None
    else if SubjectOf(cs[|cs| - 1]) == s then Some(cs[|cs| - 1])
    else LastWord(cs[..|cs| - 1], s)
  }

  function OnOr(w: Option<Change>, was: bool): bool {
    if w.Some? then On(w.value) else was
  }

  function KeyOr(w: Option<Change>, was: Option<string>): Option<string> {
    if w.Some? && w.value.Key? then w.value.key else was
  }

  function LimitOr(w: Option<Change>, was: Option<nat>): Option<nat> {
    if w.Some? && w.value.Limit? then w.value.limit else was
  }

  function SeatOr(cs: seq<Change>, d: nat, was: Member): Member {
    Member(OnOr(LastWord(cs, OpOf(d)), was.op), OnOr(LastWord(cs, VoiceOf(d)), was.voice))
  }

  /** Each mode is as the last change about it says, or as it was; nothing else differs. */
  predicate Changed(was: Channel, cs: seq<Change>, now: Channel) {
    && now == was.(topicLocked := OnOr(LastWord(cs, TopicLock), was.topicLocked),
                   noExternal := OnOr(LastWord(cs, NoExternal), was.noExternal),
                   key := KeyOr(LastWord(cs, TheKey), was.key),
                   limit := LimitOr(LastWord(cs, TheLimit), was.limit),
                   members := now.members)
    && SeatsChanged(was.members, cs, now.members)
  }

  predicate SeatsChanged(was: map<nat, Member>, cs: seq<Change>, now: map<nat, Member>) {
    now.Keys == was.Keys && forall d :: d in was ==> now[d] == SeatOr(cs, d, was[d])
  }

  lemma {:induction false} ApplyMore(ch: Channel, cs: seq<Change>)
    requires cs != []
    ensures Apply(ch, cs) == ApplyOne(Apply(ch, cs[..|cs| - 1]), cs[|cs| - 1])
    decreases |cs|
  {
    hide ApplyOne;
    if |cs| == 1 {
      assert cs[1..] == [] && cs[..0] == [];
    } else {
      ApplyMore(ApplyOne(ch, cs[0]), cs[1..]);
      assert cs[1..][..|cs| - 2] == cs[..|cs| - 1][1..];
    }
  }

  lemma LastOfMore(cs: seq<Change>, s: Subject)
    requires cs != []
    ensures LastWord(cs, s) == if SubjectOf(cs[|cs| - 1]) == s then Some(cs[|cs| - 1]) else LastWord(cs[..|cs| - 1], s)
  {
  }

  lemma ChangedMore(was: Channel, cs: seq<Change>, now: Channel)
    requires cs != [] && Changed(was, cs[..|cs| - 1], now)
    ensures Changed(was, cs, ApplyOne(now, cs[|cs| - 1]))
  {
    hide LastWord, SeatsChanged;
    SeatsMore(was, cs, now);
    LastOfMore(cs, TopicLock);
    LastOfMore(cs, NoExternal);
    LastOfMore(cs, TheKey);
    LastOfMore(cs, TheLimit);
  }

  lemma SeatsMore(was: Channel, cs: seq<Change>, now: Channel)
    requires cs != [] && SeatsChanged(was.members, cs[..|cs| - 1], now.members)
    ensures SeatsChanged(was.members, cs, ApplyOne(now, cs[|cs| - 1]).members)
  {
    hide LastWord;
    var then' := ApplyOne(now, cs[|cs| - 1]).members;
    forall d | d in was.members ensures then'[d] == SeatOr(cs, d, was.members[d]) {
      LastOfMore(cs, OpOf(d));
      LastOfMore(cs, VoiceOf(d));
    }
  }

  /** Of a list of changes the last about each mode counts. */
  lemma {:induction false} LastWordCounts(ch: Channel, cs: seq<Change>)
    ensures Changed(ch, cs, Apply(ch, cs))
    decreases |cs|
  {
    hide ApplyOne;
    if cs != [] {
      var before := cs[..|cs| - 1];
      LastWordCounts(ch, before);
      ApplyMore(ch, cs);
      hide Changed, Apply, LastWord;
      ChangedMore(ch, cs, Apply(ch, before));
    }
  }

  // --- asking for them ------------------------------------------------------------------

  predicate IsSign(c: char) {
    c == '+' || c == '-'
  }

  /** The last sign before a place, plus if there is none. */
  function Adding(letters: string, i: nat): bool
    requires i <= |letters|
  {
    if i == 0 then true else if IsSign(letters[i - 1]) then letters[i - 1] == '+' else Adding(letters, i - 1)
  }

  /** An argument goes with `o` and `v` in any case, and with `k` and `l` where they are set. */
  predicate WantsArg(letters: string, i: nat)
    requires i < |letters|
  {
    letters[i] in {'o', 'v'} || (letters[i] in {'k', 'l'} && Adding(letters, i))
  }

  /** How many arguments the letters before a place have had. */
  function Wanted(letters: string, i: nat): nat
    requires i <= |letters|
  {
    if i == 0 then 0 else Wanted(letters, i - 1) + if WantsArg(letters, i - 1) then 1 else 0
  }

  function ArgAt(letters: string, args: seq<string>, i: nat): Option<string>
    requires i < |letters|
  {
    if WantsArg(letters, i) && Wanted(letters, i) < |args| then Some(args[Wanted(letters, i)]) else None
  }

  /** What the letters before a place ask for. */
  function AskedBefore(nicks: Who, members: set<nat>, letters: string, args: seq<string>, i: nat): Asked
    requires i <= |letters|
  {
    if i == 0 then Asked([], [])
    else
      var before := AskedBefore(nicks, members, letters, args, i - 1);
      if IsSign(letters[i - 1]) then before
      else Both(before, AskOne(nicks, members, letters[i - 1], Adding(letters, i - 1), ArgAt(letters, args, i - 1)))
  }

  function Left(args: seq<string>, n: nat): seq<string> {
    if n <= |args| then args[n..] else []
  }

  lemma {:induction false} AskGoesOn(nicks: Who, members: set<nat>, letters: string, args: seq<string>, i: nat)
    requires i <= |letters|
    ensures Both(AskedBefore(nicks, members, letters, args, i),
                 Ask(nicks, members, letters[i..], Left(args, Wanted(letters, i)), Adding(letters, i)))
         == Ask(nicks, members, letters, args, true)
    decreases i
  {
    hide *;
    if i == 0 {
      NothingAsked(nicks, members, letters, args);
    } else {
      AskGoesOn(nicks, members, letters, args, i - 1);
      AskedNext(nicks, members, letters, args, i);
    }
  }

  lemma NothingAsked(nicks: Who, members: set<nat>, letters: string, args: seq<string>)
    ensures Both(AskedBefore(nicks, members, letters, args, 0),
                 Ask(nicks, members, letters[0..], Left(args, Wanted(letters, 0)), Adding(letters, 0)))
         == Ask(nicks, members, letters, args, true)
  {
    hide Ask;
    assert letters[0..] == letters && args[0..] == args;
    BothInTurn(Ask(nicks, members, letters, args, true), Asked([], []), Asked([], []));
  }

  lemma AskedNext(nicks: Who, members: set<nat>, letters: string, args: seq<string>, i: nat)
    requires 0 < i <= |letters|
    ensures Both(AskedBefore(nicks, members, letters, args, i),
                 Ask(nicks, members, letters[i..], Left(args, Wanted(letters, i)), Adding(letters, i)))
         == Both(AskedBefore(nicks, members, letters, args, i - 1),
                 Ask(nicks, members, letters[i - 1..], Left(args, Wanted(letters, i - 1)), Adding(letters, i - 1)))
  {
    hide AskOne, Both, Ask, TakesArg;
    AskNext(nicks, members, letters, i - 1, args, Wanted(letters, i - 1), Adding(letters, i - 1));
    TakesIff(letters, i - 1);
    if !IsSign(letters[i - 1]) {
      var one := AskOne(nicks, members, letters[i - 1], Adding(letters, i - 1), ArgAt(letters, args, i - 1));
      BothInTurn(AskedBefore(nicks, members, letters, args, i - 1), one,
                 Ask(nicks, members, letters[i..], Left(args, Wanted(letters, i)), Adding(letters, i)));
    }
  }

  lemma TakesIff(letters: string, i: nat)
    requires i < |letters|
    ensures TakesArg(letters[i], Adding(letters, i)) <==> WantsArg(letters, i)
    ensures WantsArg(letters, i) ==> !IsSign(letters[i])
  {
  }

  /** Each letter asks under the last sign before it, and for the next argument nobody before it
      had, whether what was asked before was granted or not. */
  lemma LettersAskInTurn(nicks: Who, members: set<nat>, letters: string, args: seq<string>)
    ensures Ask(nicks, members, letters, args, true) == AskedBefore(nicks, members, letters, args, |letters|)
  {
    hide AskOne, AskedBefore;
    AskGoesOn(nicks, members, letters, args, |letters|);
    assert letters[|letters|..] == "";
    var all := AskedBefore(nicks, members, letters, args, |letters|);
    BothInTurn(all, all, all);
  }

  /** A letter asks for one change or is answered with one error: 472 if it is none that is known,
      441 if nobody of that name is in the channel, 461 if its argument is missing or is no key, or
      no number above 0. */
  lemma LetterIsAnswered(nicks: Who, members: set<nat>, l: char, adding: bool, arg: Option<string>)
    ensures var a := AskOne(nicks, members, l, adding, arg);
            && |a.changes| + |a.errors| == 1
            && (a.errors == ["472"] <==> l !in {'t', 'n', 'k', 'l', 'o', 'v'})
            && (a.errors == ["441"] <==> l in {'o', 'v'} && arg.Some? && !(Lower(arg.value) in nicks && nicks[Lower(arg.value)] in members))
            && (a.errors == ["461"]
                <==> (arg.None? && (l in {'o', 'v'} || (adding && l in {'k', 'l'})))
                     || (adding && l == 'k' && arg == Some(""))
                     || (adding && l == 'l' && arg.Some? && (Decimals.Parse(arg.value).None? || Decimals.Parse(arg.value).value == 0)))
  {
    hide Lower, Decimals.Parse;
    assert "472" != "441" && "472" != "461" && "441" != "461" by {
      assert "472"[1] == '7' && "441"[1] == '4' && "461"[1] == '6';
    }
  }

  /** To ask for the bans is to ask for no change. */
  lemma {:induction false} ProbeChangesNothing(nicks: Who, members: set<nat>, letters: string, adding: bool)
    requires TrimPlus(letters) == "b" || TrimPlus(letters) == ""
    ensures Ask(nicks, members, letters, [], adding).changes == []
    decreases |letters|
  {
    if letters != "" {
      if letters[0] == '+' {
        ProbeChangesNothing(nicks, members, letters[1..], true);
      } else {
        BThenPluses(letters);
        assert letters[0] == 'b';
        PlusesChangeNothing(nicks, members, letters[1..], adding);
      }
    }
  }

  lemma {:induction false} BThenPluses(s: string)
    requires s != "" && s[0] != '+' && (TrimPlus(s) == "b" || TrimPlus(s) == "")
    ensures s[0] == 'b' && forall c :: c in s[1..] ==> c == '+'
    decreases |s|
  {
    if s[|s| - 1] == '+' {
      var t := s[..|s| - 1];
      assert t != "" && t[0] == s[0];
      BThenPluses(t);
      assert s[1..] == t[1..] + "+";
    } else {
      assert s == "b";
    }
  }

  lemma {:induction false} PlusesChangeNothing(nicks: Who, members: set<nat>, s: string, adding: bool)
    requires forall c :: c in s ==> c == '+'
    ensures Ask(nicks, members, s, [], adding).changes == []
    decreases |s|
  {
    if s != "" {
      assert s[0] in s && forall c :: c in s[1..] ==> c in s;
      PlusesChangeNothing(nicks, members, s[1..], true);
    }
  }

  // --- seats ----------------------------------------------------------------------------

  function Seat(n: Net, ch: string, d: nat): Option<Member> {
    if Holds(n, ch, d) then Some(n.channels[ch].members[d]) else None
  }

  /** The name in a place of a list names the channel; twelve places are looked at. */
  predicate Names(names: seq<string>, i: nat, ch: string) {
    i < |names| && i < NAMES_MAX && Lower(names[i]) == ch
  }

  ghost predicate NamedIn(names: seq<string>, ch: string) {
    exists i: nat :: Names(names, i, ch)
  }

  /** A name the channel opens for, with the key in its place. */
  predicate Opens(n: Net, names: seq<string>, keys: seq<string>, i: nat, ch: string) {
    && Names(names, i, ch) && ValidChannel(names[i])
    && (ch in n.channels ==>
          && (n.channels[ch].key.Some? ==> i < |keys| && keys[i] == n.channels[ch].key.value)
          && (n.channels[ch].limit.Some? ==> |n.channels[ch].members| < n.channels[ch].limit.value))
  }

  ghost predicate Open(n: Net, names: seq<string>, keys: seq<string>, ch: string) {
    exists i: nat :: Opens(n, names, keys, i, ch)
  }

  /** What anybody outside the channel sees of it, but for who is in. */
  function Front(n: Net, ch: string): Option<Channel> {
    if ch in n.channels then Some(n.channels[ch].(members := map[])) else None
  }

  /** A channel as it is opened. */
  function Fresh(name: string): Channel {
    Channel(name, None, "", None, None, true, true, map[])
  }

  lemma LeaveSeat(n: Net, cid: nat, s: set<string>, ch: string, d: nat)
    ensures Seat(Leave(n, cid, s), ch, d) == if d == cid && ch in s then None else Seat(n, ch, d)
    ensures ch in Leave(n, cid, s).channels ==> Front(Leave(n, cid, s), ch) == Front(n, ch)
  {
    if Holds(n, ch, d) {
      assert d in n.channels[ch].members.Keys;
    }
  }

  lemma {:induction false} PartSeat(n: Net, cid: nat, names: seq<string>, i: nat, ch: string, d: nat)
    ensures var m := PartFrom(n, cid, names, i);
            && Seat(m, ch, d) == (if d == cid && (exists j: nat :: i <= j && Names(names, j, ch)) then None else Seat(n, ch, d))
            && (ch in m.channels ==> Front(m, ch) == Front(n, ch))
    decreases NAMES_MAX - i
  {
    hide Leave, Lower, Holds;
    if i < NAMES_MAX && i < |names| {
      var key, m := Lower(names[i]), PartOne(n, cid, names[i]);
      LeaveSeat(n, cid, {key}, ch, d);
      assert Seat(m, ch, d) == if d == cid && ch == key then None else Seat(n, ch, d);
      PartSeat(m, cid, names, i + 1, ch, d);
      if ch == key {
        assert Names(names, i, ch);
      }
    }
  }

  lemma EnterElsewhere(n: Net, cid: nat, name: string, ch: string, d: nat)
    requires cid in n.conns
    ensures var m := Enter(n, cid, name);
            && (ch != Lower(name) ==> (ch in m.channels <==> ch in n.channels) && (ch in n.channels ==> m.channels[ch] == n.channels[ch]))
            && (d != cid || ch != Lower(name) ==> Seat(m, ch, d) == Seat(n, ch, d))
            && (ch in n.channels ==> Front(m, ch) == Front(n, ch))
  {
    hide Lower;
  }

  lemma EnterHere(n: Net, cid: nat, name: string)
    requires cid in n.conns
    ensures var m, ch := Enter(n, cid, name), Lower(name);
            && Seat(m, ch, cid) == Some(Member(ch !in n.channels, false))
            && (ch !in n.channels ==> Front(m, ch) == Some(Fresh(name)))
  {
    hide Lower;
  }

  /** A name lets in exactly when the channel opens for it, the client is outside and has room. */
  lemma MayEnterIff(n: Net, cid: nat, names: seq<string>, keys: seq<string>, i: nat)
    requires Linked(n) && cid in n.conns && i < |names| && i < NAMES_MAX
    ensures var ch := Lower(names[i]);
            MayEnter(n, cid, names[i], KeyAt(keys, i))
            <==> Opens(n, names, keys, i, ch) && !Holds(n, ch, cid) && |n.conns[cid].channels| < CHANS_PER_USER
  {
    hide Lower, ValidChannel, Holds;
    var ch := Lower(names[i]);
    assert Lists(n, cid, ch) <==> Holds(n, ch, cid);
  }

  lemma JoinOneIs(n: Net, cid: nat, name: string, given: Option<string>)
    requires Linked(n) && cid in n.conns
    ensures var m := JoinOne(n, cid, name, given);
            Linked(m) && cid in m.conns && |n.conns[cid].channels| <= |m.conns[cid].channels|
  {
    hide MayEnter, Lower, Linked;
    EnterIsLinked(n, cid, name);
    var was := n.conns[cid].channels;
    SubsetSize(was, was + {Lower(name)});
  }

  /** Who was in stays as they were, and so does the channel. */
  lemma {:induction false} JoinStays(n: Net, cid: nat, names: seq<string>, keys: seq<string>, i: nat, ch: string, d: nat)
    requires Linked(n) && cid in n.conns
    ensures var m := JoinFrom(n, cid, names, keys, i);
            && (d != cid || Holds(n, ch, d) ==> Seat(m, ch, d) == Seat(n, ch, d))
            && (ch in n.channels ==> ch in m.channels && Front(m, ch) == Front(n, ch))
    decreases NAMES_MAX - i
  {
    hide Enter, MayEnter, Lower, Linked, Opens;
    if i < NAMES_MAX && i < |names| {
      JoinOneIs(n, cid, names[i], KeyAt(keys, i));
      MayEnterIff(n, cid, names, keys, i);
      EnterElsewhere(n, cid, names[i], ch, d);
      JoinStays(JoinOne(n, cid, names[i], KeyAt(keys, i)), cid, names, keys, i + 1, ch, d);
    }
  }

  lemma HoldsIsThere(n: Net, ch: string, d: nat)
    requires Holds(n, ch, d)
    ensures ch in n.channels
  {
  }

  lemma OpensStays(n: Net, m: Net, names: seq<string>, keys: seq<string>, j: nat, ch: string)
    requires (ch in n.channels <==> ch in m.channels) && (ch in n.channels ==> n.channels[ch] == m.channels[ch])
    ensures Opens(n, names, keys, j, ch) <==> Opens(m, names, keys, j, ch)
  {
    hide Lower, ValidChannel;
  }

  lemma EnteredHolds(n: Net, cid: nat, name: string)
    requires cid in n.conns
    ensures Holds(Enter(n, cid, name), Lower(name), cid)
  {
    hide Lower;
  }

  /** Who comes in does so by a name that opens. */
  lemma {:induction false} JoinAdmits(n: Net, cid: nat, names: seq<string>, keys: seq<string>, i: nat, ch: string) returns (j: nat)
    requires Linked(n) && cid in n.conns
    requires !Holds(n, ch, cid) && Holds(JoinFrom(n, cid, names, keys, i), ch, cid)
    ensures Opens(n, names, keys, j, ch)
    ensures var m := JoinFrom(n, cid, names, keys, i);
            && Seat(m, ch, cid) == Some(Member(ch !in n.channels, false))
            && (ch !in n.channels ==> Front(m, ch) == Some(Fresh(names[j])))
    decreases NAMES_MAX - i
  {
    hide Enter, MayEnter, Lower, Linked, Opens, Holds, Front;
    assert i < NAMES_MAX && i < |names|;
    var m := JoinOne(n, cid, names[i], KeyAt(keys, i));
    JoinOneIs(n, cid, names[i], KeyAt(keys, i));
    MayEnterIff(n, cid, names, keys, i);
    EnterElsewhere(n, cid, names[i], ch, cid);
    if Holds(m, ch, cid) {
      j := i;
      EnterHere(n, cid, names[i]);
      JoinStays(m, cid, names, keys, i + 1, ch, cid);
      assert ch == Lower(names[i]);
      HoldsIsThere(m, ch, cid);
    } else {
      EnteredHolds(n, cid, names[i]);
      j := JoinAdmits(m, cid, names, keys, i + 1, ch);
      OpensStays(n, m, names, keys, j, ch);
    }
  }

  /** A name that opens lets in, unless the client is in as many channels as it may be. */
  lemma {:induction false} JoinRefuses(n: Net, cid: nat, names: seq<string>, keys: seq<string>, i: nat, j: nat, ch: string)
    requires Linked(n) && cid in n.conns && i <= j && Opens(n, names, keys, j, ch)
    requires !Holds(JoinFrom(n, cid, names, keys, i), ch, cid)
    ensures JoinFull(n, cid, names, keys, i)
    decreases NAMES_MAX - i
  {
    hide Enter, MayEnter, Lower, Linked, Holds, Front, JoinFull, Seat, ValidChannel;
    assert j < |names| && j < NAMES_MAX;
    var m := JoinOne(n, cid, names[i], KeyAt(keys, i));
    JoinOneIs(n, cid, names[i], KeyAt(keys, i));
    MayEnterIff(n, cid, names, keys, i);
    EnterElsewhere(n, cid, names[i], ch, cid);
    EnteredHolds(n, cid, names[i]);
    HoldsStays(m, cid, names, keys, i + 1, ch);
    HoldsStays(n, cid, names, keys, i, ch);
    if i == j {
      assert !MayEnter(n, cid, names[i], KeyAt(keys, i));
      RoomShrinks(n, cid, names, keys, i);
    } else {
      assert ch == Lower(names[i]) ==> m == n;
      OpensStays(n, m, names, keys, j, ch);
      JoinRefuses(m, cid, names, keys, i + 1, j, ch);
      FullStays(n, cid, names, keys, i);
    }
  }

  predicate JoinFull(n: Net, cid: nat, names: seq<string>, keys: seq<string>, i: nat)
    requires cid in n.conns
  {
    var m := JoinFrom(n, cid, names, keys, i);
    cid in m.conns && |m.conns[cid].channels| >= CHANS_PER_USER
  }

  lemma FullStays(n: Net, cid: nat, names: seq<string>, keys: seq<string>, i: nat)
    requires cid in n.conns && i < |names| && i < NAMES_MAX
    requires var m := JoinOne(n, cid, names[i], KeyAt(keys, i)); cid in m.conns && JoinFull(m, cid, names, keys, i + 1)
    ensures JoinFull(n, cid, names, keys, i)
  {
    hide JoinOne;
  }

  lemma HoldsStays(n: Net, cid: nat, names: seq<string>, keys: seq<string>, i: nat, ch: string)
    requires Linked(n) && cid in n.conns
    ensures Holds(n, ch, cid) ==> Holds(JoinFrom(n, cid, names, keys, i), ch, cid)
  {
    hide JoinFrom, Linked;
    JoinStays(n, cid, names, keys, i, ch, cid);
  }

  lemma {:induction false} RoomShrinks(n: Net, cid: nat, names: seq<string>, keys: seq<string>, i: nat)
    requires Linked(n) && cid in n.conns && |n.conns[cid].channels| >= CHANS_PER_USER
    ensures JoinFull(n, cid, names, keys, i)
    decreases NAMES_MAX - i
  {
    hide JoinOne, Linked;
    if i < NAMES_MAX && i < |names| {
      JoinOneIs(n, cid, names[i], KeyAt(keys, i));
      RoomShrinks(JoinOne(n, cid, names[i], KeyAt(keys, i)), cid, names, keys, i + 1);
    }
  }

  predicate GoesBy(n: Net, d: nat, nick: string) {
    d in n.conns && n.conns[d].nick.Some? && Lower(n.conns[d].nick.value) == Lower(nick)
  }

  /** What MODE asks of a channel. */
  function AskedOf(n: Net, ch: string, letters: string, args: seq<string>): seq<Change>
    requires ch in n.channels
  {
    Ask(n.nicks, n.channels[ch].members.Keys, letters, args, true).changes
  }

  ghost function SeatAfter(n: Net, cid: nat, cmd: Command, ch: string, d: nat): Option<Member> {
    var was := Seat(n, ch, d);
    match cmd
    case LeaveAll => if d == cid then None else was
    case Part(names) => if d == cid && NamedIn(names, ch) then None else was
    case Mode(name, letters, args) =>
      if was.Some? && letters.Some? && ch == Lower(name) && IsOp(n, ch, cid)
      then Some(SeatOr(AskedOf(n, ch, letters.value, args), d, was.value)) else was
    case Kick(params) =>
      if |params| >= 2 && ch == Lower(params[0]) && IsOp(n, ch, cid) && GoesBy(n, d, params[1]) then None else was
    case _ => was
  }

  /** Every seat after any command, but the one a JOIN may take. */
  lemma SeatsAfter(n: Net, cid: nat, cmd: Command, ch: string, d: nat)
    requires Consistent(n) && cid in n.conns
    requires cmd.Join? ==> d != cid || Holds(n, ch, d) || !n.conns[cid].registered
    ensures Seat(Handle(n, cid, cmd), ch, d) == SeatAfter(n, cid, cmd, ch, d)
  {
    hide Lower, Leave, JoinFrom, PartFrom, TopicChange, ModesChange, Kicking, CapChange, NickChange, UserChange,
      Channels, Conns, Named, Linked, GoesBy;
    if cmd.Cap? || cmd.Nick? || cmd.User? || cmd.Other? || !n.conns[cid].registered {
      SameChannels(n, cid, cmd);
      OutsideIsOut(n, cid, ch);
    } else {
      match cmd
      case Join(names, keys) => JoinStays(n, cid, names, keys, 0, ch, d);
      case LeaveAll =>
        LeaveSeat(n, cid, n.conns[cid].channels, ch, d);
        ListsIffHolds(n, cid, ch);
      case Part(names) => PartSeat(n, cid, names, 0, ch, d);
      case Topic(name, text) => TopicSeat(n, cid, name, text, ch, d);
      case Mode(name, letters, args) => ModeSeat(n, cid, name, letters, args, ch, d);
      case Kick(params) => KickSeat(n, cid, params, ch, d);
    }
  }

  lemma OutsideIsOut(n: Net, cid: nat, ch: string)
    requires Consistent(n) && cid in n.conns
    ensures !n.conns[cid].registered ==> !Holds(n, ch, cid)
  {
    hide Named, Channels, ValidNick, Holds;
    assert Lists(n, cid, ch) <==> Holds(n, ch, cid);
    assert SoundConn(n.conns[cid]);
  }

  lemma ListsIffHolds(n: Net, cid: nat, ch: string)
    requires Linked(n) && cid in n.conns
    ensures ch in n.conns[cid].channels <==> Holds(n, ch, cid)
  {
    hide Holds;
    assert Lists(n, cid, ch) <==> Holds(n, ch, cid);
  }

  lemma TopicSeat(n: Net, cid: nat, name: string, text: Option<string>, ch: string, d: nat)
    requires cid in n.conns
    ensures Seat(TopicChange(n, cid, name, text), ch, d) == Seat(n, ch, d)
  {
    hide Lower, Clip;
  }

  /** Neither the hash a channel's name begins with nor the question for bans makes a difference. */
  lemma ModesAre(n: Net, cid: nat, name: string, letters: Option<string>, args: seq<string>)
    requires Channels(n)
    ensures var ch := Lower(name);
            ModesChange(n, cid, name, letters, args)
            == if letters.Some? && IsOp(n, ch, cid)
               then n.(channels := n.channels[ch := Apply(n.channels[ch], AskedOf(n, ch, letters.value, args))])
               else n
  {
    hide Ask, Apply, BanProbe;
    var ch := Lower(name);
    if letters.Some? && IsOp(n, ch, cid) {
      assert SoundChannel(ch, n.channels[ch]);
      HashKept(name, n.channels[ch].name);
      hide Lower;
      if BanProbe(letters.value, args) {
        ProbeAsks(n, ch, letters.value, args);
        NothingApplied(n.channels[ch]);
        assert n.channels[ch := n.channels[ch]] == n.channels;
      }
    }
  }

  lemma ProbeAsks(n: Net, ch: string, letters: string, args: seq<string>)
    requires ch in n.channels && BanProbe(letters, args)
    ensures AskedOf(n, ch, letters, args) == []
  {
    hide Ask, TrimPlus;
    ProbeChangesNothing(n.nicks, n.channels[ch].members.Keys, letters, true);
  }

  lemma NothingApplied(ch: Channel)
    ensures Apply(ch, []) == ch
  {
  }

  lemma HashKept(a: string, b: string)
    requires Lower(a) == Lower(b) && ValidChannel(b)
    ensures a != "" && a[0] == '#'
  {
    assert b != "";
    assert |Lower(a)| == |a| && |Lower(b)| == |b|;
    assert Lower(a)[0] == LowerChar(a[0]) && Lower(b)[0] == '#';
  }

  lemma ModeSeat(n: Net, cid: nat, name: string, letters: Option<string>, args: seq<string>, ch: string, d: nat)
    requires Consistent(n)
    ensures Seat(ModesChange(n, cid, name, letters, args), ch, d) == SeatAfter(n, cid, Mode(name, letters, args), ch, d)
  {
    hide Lower, Linked, Named, Channels, Conns, Ask, Apply, SeatOr, ModesChange;
    ModesAre(n, cid, name, letters, args);
    if letters.Some? && IsOp(n, Lower(name), cid) {
      LastWordCounts(n.channels[Lower(name)], AskedOf(n, Lower(name), letters.value, args));
    }
  }

  lemma KickSeat(n: Net, cid: nat, params: seq<string>, ch: string, d: nat)
    requires Consistent(n)
    ensures Seat(Kicking(n, cid, params), ch, d) == SeatAfter(n, cid, Kick(params), ch, d)
  {
    hide Lower, Leave, Channels, Conns, Linked;
    if |params| >= 2 {
      NickLeads(n, d, params[1]);
      HolderIsThere(n, ch, d);
      if MayKick(n, cid, params) {
        LeaveSeat(n, n.nicks[Lower(params[1])], {Lower(params[0])}, ch, d);
      }
    }
  }

  lemma HolderIsThere(n: Net, ch: string, d: nat)
    requires Linked(n)
    ensures Holds(n, ch, d) ==> d in n.conns
  {
    hide Holds;
    assert Lists(n, d, ch) <==> Holds(n, ch, d);
  }

  lemma NickLeads(n: Net, d: nat, nick: string)
    requires Named(n)
    ensures GoesBy(n, d, nick) <==> Lower(nick) in n.nicks && n.nicks[Lower(nick)] == d
  {
    hide Lower;
  }

  /** A client is in a channel after a JOIN exactly if it was, or one of the twelve names opens,
      unless it is by then in as many as it may be. It is the operator of those it opened. */
  lemma JoinsIff(n: Net, cid: nat, names: seq<string>, keys: seq<string>, ch: string)
    requires Consistent(n) && cid in n.conns && n.conns[cid].registered && !Holds(n, ch, cid)
    ensures var m := Handle(n, cid, Join(names, keys));
            && cid in m.conns
            && (Holds(m, ch, cid) ==> Open(n, names, keys, ch) && Seat(m, ch, cid) == Some(Member(ch !in n.channels, false)))
            && (Open(n, names, keys, ch) ==> Holds(m, ch, cid) || |m.conns[cid].channels| == CHANS_PER_USER)
  {
    hide Lower, JoinFrom, Channels, Named, Linked, Opens, Holds, SoundConn;
    var cmd := Join(names, keys);
    var m := Handle(n, cid, cmd);
    HandleKeeps(n, cid, cmd);
    JoinKeeps(n, cid, names, keys, 0);
    if Holds(m, ch, cid) {
      var j := JoinAdmits(n, cid, names, keys, 0, ch);
    } else if Open(n, names, keys, ch) {
      var j: nat :| Opens(n, names, keys, j, ch);
      JoinRefuses(n, cid, names, keys, 0, j, ch);
      RoomIsKept(m, cid);
    }
  }

  lemma RoomIsKept(m: Net, cid: nat)
    requires Conns(m) && cid in m.conns
    ensures |m.conns[cid].channels| <= CHANS_PER_USER
  {
    hide ValidNick;
    assert SoundConn(m.conns[cid]);
  }

  // --- channels -------------------------------------------------------------------------

  /** The longest beginning of a text that fits. */
  predicate LongestFit(cut: string, text: string, max: nat) {
    && cut <= text && ByteLen(cut) <= max
    && (|cut| < |text| ==> ByteLen(cut) + Width(text[|cut|] as int) > max)
  }

  /** Who is in may set a topic, who operates there a locked one. */
  predicate MaySet(n: Net, cid: nat, ch: string) {
    Holds(n, ch, cid) && (n.channels[ch].topicLocked ==> IsOp(n, ch, cid))
  }

  predicate TopicSet(was: Channel, text: string, nick: string, now: Channel) {
    && now == was.(topic := now.topic, topicBy := nick)
    && (if text == "" then now.topic == None else now.topic.Some? && LongestFit(now.topic.value, text, TOPIC_MAX))
  }

  ghost predicate ChannelAfter(n: Net, cid: nat, cmd: Command, ch: string, now: Channel)
    requires cid in n.conns && ch in n.channels
  {
    var was := n.channels[ch];
    match cmd
    case Topic(name, text) =>
      if ch == Lower(name) && text.Some? && MaySet(n, cid, ch)
      then n.conns[cid].nick.Some? && TopicSet(was, text.value, n.conns[cid].nick.value, now)
      else now == was
    case Mode(name, letters, args) =>
      if ch == Lower(name) && letters.Some? && IsOp(n, ch, cid)
      then Changed(was, AskedOf(n, ch, letters.value, args), now)
      else now == was
    case _ => now.(members := map[]) == was.(members := map[])
  }

  /** A channel is there as long as somebody is in it. */
  lemma ThereIff(n: Net, ch: string)
    requires Channels(n)
    ensures ch in n.channels <==> exists d: nat :: Holds(n, ch, d)
  {
    hide Lower, ValidChannel;
    if ch in n.channels {
      assert SoundChannel(ch, n.channels[ch]);
      assert n.channels[ch].members.Keys != {};
      var d :| d in n.channels[ch].members.Keys;
      assert Holds(n, ch, d);
    }
  }

  /** What any command leaves of a channel that stays: its topic is the longest beginning that fits
      of the last text set, under the nick of who set it; each of its modes is the last asked by
      an operator. */
  lemma ChannelsAfter(n: Net, cid: nat, cmd: Command, ch: string)
    requires Consistent(n) && cid in n.conns
    requires ch in n.channels && ch in Handle(n, cid, cmd).channels
    ensures ChannelAfter(n, cid, cmd, ch, Handle(n, cid, cmd).channels[ch])
  {
    hide Lower, Leave, JoinFrom, PartFrom, TopicChange, ModesChange, Kicking, CapChange, NickChange, UserChange,
      Channels, Conns, Named, Linked, Changed, TopicSet;
    OutsideIsOut(n, cid, ch);
    if cmd.Cap? || cmd.Nick? || cmd.User? || cmd.Other? || !n.conns[cid].registered {
      SameChannels(n, cid, cmd);
    } else {
      match cmd
      case Join(names, keys) => JoinStays(n, cid, names, keys, 0, ch, cid);
      case LeaveAll => LeaveSeat(n, cid, n.conns[cid].channels, ch, cid);
      case Part(names) => PartSeat(n, cid, names, 0, ch, cid);
      case Topic(name, text) => TopicIs(n, cid, name, text, ch);
      case Mode(name, letters, args) => ModesAreLast(n, cid, name, letters, args, ch);
      case Kick(params) => KickFront(n, cid, params, ch);
    }
  }

  lemma TopicIs(n: Net, cid: nat, name: string, text: Option<string>, ch: string)
    requires Consistent(n) && cid in n.conns && n.conns[cid].registered && ch in n.channels
    ensures var m := TopicChange(n, cid, name, text);
            ch in m.channels && ChannelAfter(n, cid, Topic(name, text), ch, m.channels[ch])
  {
    hide Lower, Clip, Linked, Named, Channels, ByteLen, ValidNick;
    assert SoundConn(n.conns[cid]);
    if text.Some? {
      ClipIs(text.value, TOPIC_MAX);
      SomethingFits(text.value);
    }
  }

  lemma SomethingFits(text: string)
    ensures Clip(text, TOPIC_MAX) == "" <==> text == ""
  {
  }

  lemma ModesAreLast(n: Net, cid: nat, name: string, letters: Option<string>, args: seq<string>, ch: string)
    requires Channels(n) && cid in n.conns && ch in n.channels
    ensures var m := ModesChange(n, cid, name, letters, args);
            ch in m.channels && ChannelAfter(n, cid, Mode(name, letters, args), ch, m.channels[ch])
  {
    hide Lower, Channels, Ask, Apply, Changed, ModesChange;
    ModesAre(n, cid, name, letters, args);
    if letters.Some? && IsOp(n, Lower(name), cid) {
      LastWordCounts(n.channels[Lower(name)], AskedOf(n, Lower(name), letters.value, args));
    }
  }

  lemma KickFront(n: Net, cid: nat, params: seq<string>, ch: string)
    requires ch in n.channels && ch in Kicking(n, cid, params).channels
    ensures Front(Kicking(n, cid, params), ch) == Front(n, ch)
  {
    hide Lower, Leave;
    if MayKick(n, cid, params) {
      LeaveSeat(n, n.nicks[Lower(params[1])], {Lower(params[0])}, ch, cid);
    }
  }

  /** A channel that was not there is opened by the JOIN of one of its names, with that name,
      locked to its operators and to its members, and nothing else set. */
  lemma OpenedBy(n: Net, cid: nat, cmd: Command, ch: string)
    requires Consistent(n) && cid in n.conns
    requires ch !in n.channels && ch in Handle(n, cid, cmd).channels
    ensures cmd.Join? && Holds(Handle(n, cid, cmd), ch, cid)
    ensures exists i: nat :: Opens(n, cmd.names, cmd.keys, i, ch) && Front(Handle(n, cid, cmd), ch) == Some(Fresh(cmd.names[i]))
  {
    hide Lower, JoinFrom, Leave, PartFrom, TopicChange, ModesChange, Kicking, CapChange, NickChange, UserChange,
      Linked, Named, Channels, Conns, Opens, Seat, Holds, LetIn;
    var m := Handle(n, cid, cmd);
    HandleKeeps(n, cid, cmd);
    ThereIff(m, ch);
    var d: nat :| Holds(m, ch, d);
    Authority(n, cid, cmd, d, ch);
    HoldsIsThere(m, ch, d);
    NotThere(n, ch);
    assert d == cid && cmd.Join?;
    var i := JoinAdmits(n, cid, cmd.names, cmd.keys, 0, ch);
  }

  lemma NotThere(n: Net, ch: string)
    requires ch !in n.channels
    ensures forall d :: !Holds(n, ch, d)
  {
  }

  // --- clients --------------------------------------------------------------------------

  /** The characters of a user name that are kept. */
  function Graphics(s: string): string {
    if s == "" then "" else (if '!' <= s[0] <= '~' then [s[0]] else "") + Graphics(s[1..])
  }

  function FirstOf(s: string, max: nat): string {
    if |s| <= max then s else s[..max]
  }

  lemma {:induction false} UserNameIs(s: string, room: nat)
    ensures UserName(s, room) == FirstOf(Graphics(s), room)
  {
    if s != "" && room > 0 {
      if '!' <= s[0] <= '~' {
        UserNameIs(s[1..], room - 1);
        assert ([s[0]] + Graphics(s[1..]))[..|[s[0]]|] == [s[0]];
      } else {
        UserNameIs(s[1..], room);
        assert "" + Graphics(s[1..]) == Graphics(s[1..]);
      }
    }
  }

  /** Nobody else goes by the nick. */
  ghost predicate Unheld(n: Net, cid: nat, nick: string) {
    forall d :: GoesBy(n, d, nick) ==> d == cid
  }

  ghost function NickAfter(n: Net, cid: nat, cmd: Command): Option<string>
    requires cid in n.conns
  {
    if cmd.Nick? && cmd.nick.Some? && ValidNick(cmd.nick.value) && Unheld(n, cid, cmd.nick.value) then cmd.nick
    else n.conns[cid].nick
  }

  function UserAfter(n: Net, cid: nat, cmd: Command): Option<string>
    requires cid in n.conns
  {
    if cmd.User? && !n.conns[cid].registered && |cmd.params| >= 4
    then var kept := FirstOf(Graphics(cmd.params[0]), 12); Some(if kept == "" then "u" else kept)
    else n.conns[cid].user
  }

  function CappingAfter(n: Net, cid: nat, cmd: Command): bool
    requires cid in n.conns
  {
    if cmd.Cap? && (cmd.sub == "LS" || cmd.sub == "LIST") && !n.conns[cid].registered then true
    else n.conns[cid].capping && !(cmd.Cap? && cmd.sub == "END")
  }

  /** A client is registered exactly when it has both names and no negotiation is open. */
  ghost predicate Settled(n: Net) {
    forall cid :: cid in n.conns ==> IsSettled(n.conns[cid])
  }

  predicate IsSettled(c: Conn) {
    c.registered <==> c.nick.Some? && c.user.Some? && !c.capping
  }

  predicate SameButChannels(c: Conn, d: Conn) {
    c.(channels := {}) == d.(channels := {})
  }

  /** What any command leaves of a client, but for its channels. */
  lemma ConnsAfter(n: Net, cid: nat, cmd: Command, d: nat)
    requires Consistent(n) && Settled(n) && cid in n.conns
    ensures var m := Handle(n, cid, cmd);
            && m.conns.Keys == n.conns.Keys && m.nextCid == n.nextCid
            && (d in n.conns && d != cid ==> SameButChannels(m.conns[d], n.conns[d]))
            && m.conns[cid].nick == NickAfter(n, cid, cmd)
            && m.conns[cid].user == UserAfter(n, cid, cmd)
            && m.conns[cid].capping == CappingAfter(n, cid, cmd)
            && IsSettled(m.conns[cid])
  {
    hide Lower, Leave, JoinFrom, PartFrom, TopicChange, ModesChange, Kicking, CapChange, NickChange, UserChange,
      Linked, Named, Channels, Conns, UserAfter, CappingAfter, NickAfter;
    assert IsSettled(n.conns[cid]);
    match cmd
    case Cap(sub) => CapIs(n, cid, sub);
    case Nick(nick) => NickIs(n, cid, nick);
    case User(params) => UserIs(n, cid, params);
    case Join(names, keys) => if n.conns[cid].registered { JoinConns(n, cid, names, keys, 0, d); } OthersLeave(n, cid, cmd);
    case LeaveAll => LeaveConnsIs(n, cid, n.conns[cid].channels, d); LeaveConnsIs(n, cid, n.conns[cid].channels, cid); OthersLeave(n, cid, cmd);
    case Part(names) => PartConns(n, cid, names, 0, d); OthersLeave(n, cid, cmd);
    case Topic(name, text) => SameConns(n, cid, name, text, None, []); OthersLeave(n, cid, cmd);
    case Mode(name, letters, args) => SameConns(n, cid, name, None, letters, args); OthersLeave(n, cid, cmd);
    case Kick(params) => KickConns(n, cid, params, d); KickConns(n, cid, params, cid); OthersLeave(n, cid, cmd);
    case Other => OthersLeave(n, cid, cmd);
  }

  lemma OthersLeave(n: Net, cid: nat, cmd: Command)
    requires cid in n.conns && !cmd.Cap? && !cmd.Nick? && !cmd.User?
    ensures NickAfter(n, cid, cmd) == n.conns[cid].nick
    ensures UserAfter(n, cid, cmd) == n.conns[cid].user
    ensures CappingAfter(n, cid, cmd) == n.conns[cid].capping
  {
    hide Unheld, ValidNick;
  }

  lemma LeaveConnsIs(n: Net, cid: nat, s: set<string>, d: nat)
    ensures Leave(n, cid, s).conns.Keys == n.conns.Keys && Leave(n, cid, s).nextCid == n.nextCid
    ensures d in n.conns ==> SameButChannels(Leave(n, cid, s).conns[d], n.conns[d])
  {
    assert cid in n.conns ==> n.conns.Keys + {cid} == n.conns.Keys;
  }

  lemma {:induction false} PartConns(n: Net, cid: nat, names: seq<string>, i: nat, d: nat)
    ensures var m := PartFrom(n, cid, names, i);
            && m.conns.Keys == n.conns.Keys && m.nextCid == n.nextCid
            && (d in n.conns ==> SameButChannels(m.conns[d], n.conns[d]))
            && (cid in n.conns ==> SameButChannels(m.conns[cid], n.conns[cid]))
    decreases NAMES_MAX - i
  {
    hide Leave, Lower, Holds;
    if i < NAMES_MAX && i < |names| {
      LeaveConnsIs(n, cid, {Lower(names[i])}, d);
      LeaveConnsIs(n, cid, {Lower(names[i])}, cid);
      PartConns(PartOne(n, cid, names[i]), cid, names, i + 1, d);
    }
  }

  lemma {:induction false} JoinConns(n: Net, cid: nat, names: seq<string>, keys: seq<string>, i: nat, d: nat)
    requires cid in n.conns
    ensures var m := JoinFrom(n, cid, names, keys, i);
            && m.conns.Keys == n.conns.Keys && m.nextCid == n.nextCid
            && (d in n.conns ==> SameButChannels(m.conns[d], n.conns[d]))
            && SameButChannels(m.conns[cid], n.conns[cid])
    decreases NAMES_MAX - i
  {
    hide Enter, MayEnter, Lower;
    if i < NAMES_MAX && i < |names| {
      EnterConns(n, cid, names[i], d);
      EnterConns(n, cid, names[i], cid);
      JoinConns(JoinOne(n, cid, names[i], KeyAt(keys, i)), cid, names, keys, i + 1, d);
    }
  }

  lemma EnterConns(n: Net, cid: nat, name: string, d: nat)
    requires cid in n.conns
    ensures var m := Enter(n, cid, name);
            m.conns.Keys == n.conns.Keys && m.nextCid == n.nextCid && (d in n.conns ==> SameButChannels(m.conns[d], n.conns[d]))
  {
    hide Lower;
    assert n.conns.Keys + {cid} == n.conns.Keys;
  }

  lemma SameConns(n: Net, cid: nat, name: string, text: Option<string>, letters: Option<string>, args: seq<string>)
    requires cid in n.conns
    ensures TopicChange(n, cid, name, text).conns == n.conns && TopicChange(n, cid, name, text).nextCid == n.nextCid
    ensures ModesChange(n, cid, name, letters, args).conns == n.conns && ModesChange(n, cid, name, letters, args).nextCid == n.nextCid
  {
    hide Lower, Clip, Apply, Ask, BanProbe;
  }

  lemma KickConns(n: Net, cid: nat, params: seq<string>, d: nat)
    ensures Kicking(n, cid, params).conns.Keys == n.conns.Keys && Kicking(n, cid, params).nextCid == n.nextCid
    ensures d in n.conns ==> SameButChannels(Kicking(n, cid, params).conns[d], n.conns[d])
  {
    hide Lower, Leave;
    if MayKick(n, cid, params) {
      LeaveConnsIs(n, n.nicks[Lower(params[1])], {Lower(params[0])}, d);
    }
  }

  lemma RegisterIs(n: Net, cid: nat)
    requires cid in n.conns && (n.conns[cid].registered ==> IsSettled(n.conns[cid]))
    ensures var m := TryRegister(n, cid);
            && m.conns.Keys == n.conns.Keys && m.nextCid == n.nextCid
            && (forall d :: d in n.conns && d != cid ==> m.conns[d] == n.conns[d])
            && m.conns[cid].(registered := n.conns[cid].registered) == n.conns[cid]
            && IsSettled(m.conns[cid])
  {
    assert n.conns.Keys + {cid} == n.conns.Keys;
  }

  lemma CapIs(n: Net, cid: nat, sub: string)
    requires cid in n.conns && IsSettled(n.conns[cid])
    ensures var m, cmd := Handle(n, cid, Cap(sub)), Cap(sub);
            && m.conns.Keys == n.conns.Keys && m.nextCid == n.nextCid
            && (forall d :: d in n.conns && d != cid ==> m.conns[d] == n.conns[d])
            && m.conns[cid].nick == NickAfter(n, cid, cmd)
            && m.conns[cid].user == UserAfter(n, cid, cmd)
            && m.conns[cid].capping == CappingAfter(n, cid, cmd)
            && IsSettled(m.conns[cid])
  {
    hide TryRegister, Unheld, ValidNick;
    var c := n.conns[cid];
    assert n.conns.Keys + {cid} == n.conns.Keys;
    if sub == "END" {
      RegisterIs(n.(conns := n.conns[cid := c.(capping := false)]), cid);
    }
  }

  lemma UserIs(n: Net, cid: nat, params: seq<string>)
    requires cid in n.conns && IsSettled(n.conns[cid])
    ensures var m, cmd := Handle(n, cid, User(params)), User(params);
            && m.conns.Keys == n.conns.Keys && m.nextCid == n.nextCid
            && (forall d :: d in n.conns && d != cid ==> m.conns[d] == n.conns[d])
            && m.conns[cid].nick == NickAfter(n, cid, cmd)
            && m.conns[cid].user == UserAfter(n, cid, cmd)
            && m.conns[cid].capping == CappingAfter(n, cid, cmd)
            && IsSettled(m.conns[cid])
  {
    hide TryRegister, Unheld, ValidNick, UserName, FirstOf, Graphics;
    var c := n.conns[cid];
    assert n.conns.Keys + {cid} == n.conns.Keys;
    if !c.registered && |params| >= 4 {
      UserNameIs(params[0], 12);
      var user := UserName(params[0], 12);
      RegisterIs(n.(conns := n.conns[cid := c.(user := Some(if user == "" then "u" else user))]), cid);
    }
  }

  lemma NickIs(n: Net, cid: nat, nick: Option<string>)
    requires Named(n) && cid in n.conns && IsSettled(n.conns[cid])
    ensures var m, cmd := Handle(n, cid, Nick(nick)), Nick(nick);
            && m.conns.Keys == n.conns.Keys && m.nextCid == n.nextCid
            && (forall d :: d in n.conns && d != cid ==> m.conns[d] == n.conns[d])
            && m.conns[cid].nick == NickAfter(n, cid, cmd)
            && m.conns[cid].user == UserAfter(n, cid, cmd)
            && m.conns[cid].capping == CappingAfter(n, cid, cmd)
            && IsSettled(m.conns[cid])
  {
    hide TryRegister, ValidNick, Lower;
    assert n.conns.Keys + {cid} == n.conns.Keys;
    if nick.Some? && ValidNick(nick.value) {
      UnheldIff(n, cid, nick.value);
      RegisterIs(Rename(n, cid, nick.value), cid);
    }
  }

  lemma UnheldIff(n: Net, cid: nat, nick: string)
    requires Named(n)
    ensures Unheld(n, cid, nick) <==> Lower(nick) !in n.nicks || n.nicks[Lower(nick)] == cid
  {
    hide Lower, GoesBy;
    if Lower(nick) in n.nicks {
      NickLeads(n, n.nicks[Lower(nick)], nick);
    }
    forall d ensures GoesBy(n, d, nick) <==> d >= 0 && Lower(nick) in n.nicks && n.nicks[Lower(nick)] == d {
      NickLeads(n, d, nick);
    }
  }

  // --- coming and going -----------------------------------------------------------------

  /** A connection reaped is gone from the clients and from every channel; nobody else is touched. */
  lemma ReapLeaves(n: Net, cid: nat, ch: string, d: nat)
    requires Consistent(n) && cid in n.conns
    ensures var m := Reaped(n, cid);
            && m.conns.Keys == n.conns.Keys - {cid} && m.nextCid == n.nextCid
            && (d in n.conns && d != cid ==> m.conns[d] == n.conns[d])
            && Seat(m, ch, d) == (if d == cid then None else Seat(n, ch, d))
            && (ch in m.channels ==> Front(m, ch) == Front(n, ch))
  {
    hide Lower, Leave, Linked, Named, Channels, Conns;
    var s := n.conns[cid].channels;
    LeaveSeat(n, cid, s, ch, d);
    LeaveConn(n, cid, s);
    ListsIffHolds(n, cid, ch);
    HolderIsThere(n, ch, d);
    LeaveConnsIs(n, cid, s, d);
  }

  /** One accepted is nobody yet, and there is room for so many. */
  lemma AcceptAdds(n: Net, d: nat)
    requires Conns(n)
    ensures var m := Accepted(n);
            && m.channels == n.channels && m.nicks == n.nicks && m.nextCid >= n.nextCid
            && (d in m.conns <==> d in n.conns || (d == n.nextCid && |n.conns| < MAX_CLIENTS))
            && (d in n.conns ==> m.conns[d] == n.conns[d])
            && (d in m.conns && d !in n.conns ==> m.conns[d] == Conn(None, None, false, false, {}))
  {
    hide Conns;
    NextIsNew(n);
  }

  lemma NextIsNew(n: Net)
    requires Conns(n)
    ensures n.nextCid !in n.conns
  {
    hide SoundConn;
  }

  lemma StepSettles(n: Net, e: Event)
    requires Consistent(n) && Settled(n)
    ensures Consistent(Step(n, e)) && Settled(Step(n, e))
  {
    hide Consistent, Handle, Reaped, Accepted, IsSettled;
    match e
    case Accept => AcceptSettles(n);
    case Line(cid, cmd) => if cid in n.conns { LineSettles(n, cid, cmd); }
    case Reap(cid) => if cid in n.conns { ReapSettles(n, cid); }
  }

  lemma AcceptSettles(n: Net)
    requires Consistent(n) && Settled(n)
    ensures Consistent(Accepted(n)) && Settled(Accepted(n))
  {
    hide Consistent, Accepted, IsSettled;
    AcceptKeeps(n);
    var m := Accepted(n);
    forall d | d in m.conns ensures IsSettled(m.conns[d]) {
      AcceptedIsSettled(n, d);
    }
  }

  lemma AcceptedIsSettled(n: Net, d: nat)
    requires Consistent(n) && Settled(n) && d in Accepted(n).conns
    ensures IsSettled(Accepted(n).conns[d])
  {
    hide Accepted, Linked, Named, Channels, Conns;
    AcceptAdds(n, d);
    assert d in n.conns ==> IsSettled(n.conns[d]);
  }

  lemma LineSettles(n: Net, cid: nat, cmd: Command)
    requires Consistent(n) && Settled(n) && cid in n.conns
    ensures Consistent(Handle(n, cid, cmd)) && Settled(Handle(n, cid, cmd))
  {
    hide Consistent, Handle;
    HandleKeeps(n, cid, cmd);
    var m := Handle(n, cid, cmd);
    ConnsAfter(n, cid, cmd, cid);
    forall d | d in m.conns ensures IsSettled(m.conns[d]) {
      ConnsAfter(n, cid, cmd, d);
      assert IsSettled(n.conns[d]);
    }
  }

  lemma ReapSettles(n: Net, cid: nat)
    requires Consistent(n) && Settled(n) && cid in n.conns
    ensures Consistent(Reaped(n, cid)) && Settled(Reaped(n, cid))
  {
    hide Consistent, Reaped, Seat, Front;
    ReapKeeps(n, cid);
    var m := Reaped(n, cid);
    forall d | d in m.conns ensures IsSettled(m.conns[d]) {
      ReapLeaves(n, cid, "", d);
      assert d in n.conns && d != cid;
      assert IsSettled(n.conns[d]);
    }
  }

  lemma {:induction false} RunSettles(n: Net, es: seq<Event>)
    requires Consistent(n) && Settled(n)
    ensures Settled(Run(n, es))
    decreases |es|
  {
    hide Consistent, Settled, Step;
    if es != [] {
      StepSettles(n, es[0]);
      RunSettles(Step(n, es[0]), es[1..]);
    }
  }

  /** Whatever is said in whatever order, a client is registered exactly when it has given both names
      and its negotiation is over. */
  lemma RegisteredIff(es: seq<Event>, cid: nat)
    requires cid in Run(EMPTY, es).conns
    ensures var c := Run(EMPTY, es).conns[cid];
            c.registered <==> c.nick.Some? && c.user.Some? && !c.capping
  {
    hide Run, Consistent;
    EveryNetIsConsistent([]);
    RunNothing();
    RunSettles(EMPTY, es);
    assert IsSettled(Run(EMPTY, es).conns[cid]);
  }

  lemma RunNothing()
    ensures Run(EMPTY, []) == EMPTY
  {
  }
}
