/** IRC/src/server.rs: the three maps of the server and what each command makes of them. */
module IrcState {
  import opened Ascii
  import opened Common
  import opened IrcWords
  import opened IrcModes
  import opened Utf8
  import opened SetSize

  const MAX_CLIENTS := 512
  const CHANS_PER_USER := 32
  const NICK_MAX := 24
  const CHANNEL_MAX := 50
  const NAMES_MAX := 12
  const TOPIC_MAX := 390

  datatype Conn = Conn(nick: Option<string>, user: Option<string>, registered: bool, capping: bool, channels: set<string>)

  datatype Net = Net(conns: map<nat, Conn>, nicks: map<string, nat>, channels: map<string, Channel>, nextCid: nat)

  /** A line taken apart: lists split at their commas, numbers of words kept as they came. */
  datatype Command =
    | Cap(sub: string)
    | Nick(nick: Option<string>)
    | User(params: seq<string>)
    | Join(names: seq<string>, keys: seq<string>)
    | LeaveAll
    | Part(names: seq<string>)
    | Topic(name: string, text: Option<string>)
    | Mode(name: string, letters: Option<string>, args: seq<string>)
    | Kick(params: seq<string>)
    | Other

  predicate NickChar(c: char) {
    'a' <= c <= 'z' || 'A' <= c <= 'Z' || '0' <= c <= '9'
    || c in {'[', ']', '\\', '`', '_', '^', '{', '|', '}', '-'}
  }

  predicate ValidNick(s: string) {
    s != "" && ByteLen(s) <= NICK_MAX && !('0' <= s[0] <= '9') && s[0] != '-' && forall c :: c in s ==> NickChar(c)
  }

  predicate ValidChannel(s: string) {
    2 <= ByteLen(s) <= CHANNEL_MAX && s[0] == '#' && forall c :: c in s ==> c !in {' ', ',', '\U{000007}', ':'}
  }

  const TABBED := "#a\tb"

  /** A name may hold a tab, and a client can bring one in; told a change of modes, such a channel's
      members read another line. */
  lemma TabbedNameIsLost(prefix: string)
    requires ' ' !in prefix
    ensures ValidChannel(TABBED) && IrcWords.Parse("JOIN :" + TABBED) == Some(["JOIN", TABBED])
    ensures var cs := [Flag('t', true)];
            IrcWords.Parse(Clip(TellLine(prefix, TABBED, cs), LINE_MAX)) != Some(Told(TABBED, cs))
  {
    var cs := [Flag('t', true)];
    TabIsValid();
    TabIsParsed();
    TabIsNoWord([Letters(cs, None)] + Args(cs));
    hide *;
    ToldAsTextIff(prefix, TABBED, cs);
    assert [TABBED, Letters(cs, None)] + Args(cs) == [TABBED] + ([Letters(cs, None)] + Args(cs));
  }

  lemma TabIsValid()
    ensures ValidChannel(TABBED)
  {
    AsciiLen(TABBED);
  }

  lemma TabIsNoWord(more: seq<string>)
    ensures !Plain([TABBED] + more)
  {
    assert ([TABBED] + more)[0] == TABBED && TABBED[2] in TABBED;
  }

  lemma TabIsParsed()
    ensures IrcWords.Parse("JOIN :" + TABBED) == Some(["JOIN", TABBED])
  {
    OneWord();
    hide Words, WordEnd;
    var s := "JOIN :" + TABBED;
    assert s[1..][1..][1..][1..] == " :" + TABBED;
    assert ColonAt(" :" + TABBED) == Some(0);
    assert ColonAt(s[1..][1..][1..]) == Some(1) && ColonAt(s[1..][1..]) == Some(2) && ColonAt(s[1..]) == Some(3);
    assert ColonAt(s) == Some(4) && s[..4] == "JOIN" && s[6..] == TABBED;
    assert Trimmed(s) == s && s[0] == 'J';
    assert Params(s) == ["JOIN"] + [TABBED] == ["JOIN", TABBED];
    assert Head(s) == "JOIN";
    assert IrcWords.Parse(s) == Some(Params(s));
  }

  lemma OneWord()
    ensures Words("JOIN") == ["JOIN"]
  {
    FirstWord("JOIN", "");
    assert "JOIN" + "" == "JOIN";
  }

  // --- what is true of the maps ---------------------------------------------------------

  predicate Lists(n: Net, cid: nat, ch: string) {
    cid in n.conns && ch in n.conns[cid].channels
  }

  predicate Holds(n: Net, ch: string, cid: nat) {
    ch in n.channels && cid in n.channels[ch].members
  }

  predicate IsOp(n: Net, ch: string, cid: nat) {
    Holds(n, ch, cid) && n.channels[ch].members[cid].op
  }

  /** A client lists a channel exactly when the channel lists the client. */
  ghost predicate Linked(n: Net) {
    forall cid, ch :: Lists(n, cid, ch) <==> Holds(n, ch, cid)
  }

  /** Lowered nicks lead to the connections that hold them, one to one. */
  ghost predicate Named(n: Net) {
    && (forall l :: l in n.nicks ==> n.nicks[l] in n.conns && n.conns[n.nicks[l]].nick.Some? && Lower(n.conns[n.nicks[l]].nick.value) == l)
    && (forall cid :: cid in n.conns && n.conns[cid].nick.Some? ==>
          Lower(n.conns[cid].nick.value) in n.nicks && n.nicks[Lower(n.conns[cid].nick.value)] == cid)
  }

  predicate SoundChannel(key: string, ch: Channel) {
    ch.members != map[] && Lower(ch.name) == key && ValidChannel(ch.name) && ch.key != Some("") && ch.limit != Some(0)
  }

  predicate SoundConn(c: Conn) {
    && (c.registered ==> c.nick.Some? && c.user.Some?)
    && (c.nick.Some? ==> ValidNick(c.nick.value))
    && (c.channels != {} ==> c.registered)
    && |c.channels| <= CHANS_PER_USER
  }

  ghost predicate Channels(n: Net) {
    forall ch :: ch in n.channels ==> SoundChannel(ch, n.channels[ch])
  }

  ghost predicate Conns(n: Net) {
    && (forall cid :: cid in n.conns ==> SoundConn(n.conns[cid]) && cid < n.nextCid)
    && |n.conns| <= MAX_CLIENTS
  }

  ghost predicate Consistent(n: Net) {
    Linked(n) && Named(n) && Channels(n) && Conns(n)
  }

  // --- what is done to them -------------------------------------------------------------

  /** `cid` out of every channel in `s`; a channel left empty goes. */
  function Leave(n: Net, cid: nat, s: set<string>): Net {
    n.(channels := map ch | ch in n.channels && !(ch in s && n.channels[ch].members.Keys <= {cid}) ::
         (if ch in s then n.channels[ch].(members := n.channels[ch].members - {cid}) else n.channels[ch]),
       conns := if cid in n.conns then n.conns[cid := n.conns[cid].(channels := n.conns[cid].channels - s)] else n.conns)
  }

  function NewChannel(name: string): Channel {
    Channel(name, None, "", None, None, true, true, map[])
  }

  /** `cid` into a channel; the first one in opens it and is its operator. */
  function Enter(n: Net, cid: nat, name: string): Net
    requires cid in n.conns
  {
    var key := Lower(name);
    var ch := if key in n.channels then n.channels[key] else NewChannel(name);
    n.(channels := n.channels[key := ch.(members := ch.members[cid := Member(key !in n.channels, false)])],
       conns := n.conns[cid := n.conns[cid].(channels := n.conns[cid].channels + {key})])
  }

  /** What `cmd_join` asks of one name and the key given with it. */
  predicate MayEnter(n: Net, cid: nat, name: string, given: Option<string>)
    requires cid in n.conns
  {
    var key := Lower(name);
    && ValidChannel(name)
    && key !in n.conns[cid].channels
    && |n.conns[cid].channels| < CHANS_PER_USER
    && (key in n.channels ==>
          && (n.channels[key].key.Some? ==> given == n.channels[key].key)
          && (n.channels[key].limit.Some? ==> |n.channels[key].members| < n.channels[key].limit.value))
  }

  function JoinOne(n: Net, cid: nat, name: string, given: Option<string>): Net
    requires cid in n.conns
  {
    if MayEnter(n, cid, name, given) then Enter(n, cid, name) else n
  }

  function KeyAt(keys: seq<string>, i: nat): Option<string> {
    if i < |keys| then Some(keys[i]) else None
  }

  /** The first twelve names, each with the key in its place. */
  function JoinFrom(n: Net, cid: nat, names: seq<string>, keys: seq<string>, i: nat): Net
    requires cid in n.conns
    decreases NAMES_MAX - i
  {
    if i >= NAMES_MAX || i >= |names| then n
    else JoinFrom(JoinOne(n, cid, names[i], KeyAt(keys, i)), cid, names, keys, i + 1)
  }

  function PartOne(n: Net, cid: nat, name: string): Net {
    if Holds(n, Lower(name), cid) then Leave(n, cid, {Lower(name)}) else n
  }

  function PartFrom(n: Net, cid: nat, names: seq<string>, i: nat): Net
    decreases NAMES_MAX - i
  {
    if i >= NAMES_MAX || i >= |names| then n else PartFrom(PartOne(n, cid, names[i]), cid, names, i + 1)
  }

  function Rename(n: Net, cid: nat, nick: string): Net
    requires cid in n.conns
  {
    var freed := if n.conns[cid].nick.Some? then n.nicks - {Lower(n.conns[cid].nick.value)} else n.nicks;
    n.(nicks := freed[Lower(nick) := cid], conns := n.conns[cid := n.conns[cid].(nick := Some(nick))])
  }

  function TryRegister(n: Net, cid: nat): Net
    requires cid in n.conns
  {
    var c := n.conns[cid];
    if !c.registered && !c.capping && c.nick.Some? && c.user.Some?
    then n.(conns := n.conns[cid := c.(registered := true)])
    else n
  }

  function NickChange(n: Net, cid: nat, nick: Option<string>): Net
    requires cid in n.conns
  {
    if nick.None? || !ValidNick(nick.value) then n
    else if Lower(nick.value) in n.nicks && n.nicks[Lower(nick.value)] != cid then n
    else
      var m := Rename(n, cid, nick.value);
      if n.conns[cid].registered then m else TryRegister(m, cid)
  }

  predicate Graphic(c: char) {
    '!' <= c <= '~'
  }

  /** The user name kept: graphic characters, twelve of them, or "u". */
  function UserName(s: string, room: nat): string {
    if s == "" || room == 0 then ""
    else if Graphic(s[0]) then [s[0]] + UserName(s[1..], room - 1)
    else UserName(s[1..], room)
  }

  function UserChange(n: Net, cid: nat, params: seq<string>): Net
    requires cid in n.conns
  {
    if n.conns[cid].registered || |params| < 4 then n
    else
      var user := UserName(params[0], 12);
      TryRegister(n.(conns := n.conns[cid := n.conns[cid].(user := Some(if user == "" then "u" else user))]), cid)
  }

  function CapChange(n: Net, cid: nat, sub: string): Net
    requires cid in n.conns
  {
    var c := n.conns[cid];
    if sub == "LS" || sub == "LIST" then
      if c.registered then n else n.(conns := n.conns[cid := c.(capping := true)])
    else if sub == "END" then TryRegister(n.(conns := n.conns[cid := c.(capping := false)]), cid)
    else n
  }

  function TopicChange(n: Net, cid: nat, name: string, text: Option<string>): Net
    requires cid in n.conns
  {
    var key := Lower(name);
    if text.None? || !Holds(n, key, cid) || (n.channels[key].topicLocked && !IsOp(n, key, cid)) then n
    else
      var cut := Clip(text.value, TOPIC_MAX);
      var who := if n.conns[cid].nick.Some? then n.conns[cid].nick.value else "*";
      n.(channels := n.channels[key := n.channels[key].(topic := if cut == "" then None else Some(cut), topicBy := who)])
  }

  /** `trim_matches('+')`. */
  function TrimPlus(s: string): string {
    if s == "" then s
    else if s[0] == '+' then TrimPlus(s[1..])
    else if s[|s| - 1] == '+' then TrimPlus(s[..|s| - 1])
    else s
  }

  /** A client that asks for the ban list is not asking for a change. */
  predicate BanProbe(letters: string, args: seq<string>) {
    args == [] && TrimPlus(letters) == "b"
  }

  function ModesChange(n: Net, cid: nat, name: string, letters: Option<string>, args: seq<string>): Net {
    var key := Lower(name);
    if name == "" || name[0] != '#' || key !in n.channels || letters.None? || BanProbe(letters.value, args) || !IsOp(n, key, cid) then n
    else
      var ch := n.channels[key];
      n.(channels := n.channels[key := Apply(ch, Ask(n.nicks, ch.members.Keys, letters.value, args, true).changes)])
  }

  predicate MayKick(n: Net, cid: nat, params: seq<string>) {
    && |params| >= 2
    && IsOp(n, Lower(params[0]), cid)
    && Lower(params[1]) in n.nicks
    && Holds(n, Lower(params[0]), n.nicks[Lower(params[1])])
  }

  function Kicking(n: Net, cid: nat, params: seq<string>): Net {
    if MayKick(n, cid, params) then Leave(n, n.nicks[Lower(params[1])], {Lower(params[0])}) else n
  }

  /** `handle_line`: before registration only CAP, NICK and USER do anything to the maps. */
  function Handle(n: Net, cid: nat, cmd: Command): Net
    requires cid in n.conns
  {
    match cmd
    case Cap(sub) => CapChange(n, cid, sub)
    case Nick(nick) => NickChange(n, cid, nick)
    case User(params) => UserChange(n, cid, params)
    case _ =>
      if !n.conns[cid].registered then n
      else
        match cmd
        case Join(names, keys) => JoinFrom(n, cid, names, keys, 0)
        case LeaveAll => Leave(n, cid, n.conns[cid].channels)
        case Part(names) => PartFrom(n, cid, names, 0)
        case Topic(name, text) => TopicChange(n, cid, name, text)
        case Mode(name, letters, args) => ModesChange(n, cid, name, letters, args)
        case Kick(params) => Kicking(n, cid, params)
        case _ => n
  }

  function Accepted(n: Net): Net {
    if |n.conns| >= MAX_CLIENTS then n
    else n.(conns := n.conns[n.nextCid := Conn(None, None, false, false, {})], nextCid := n.nextCid + 1)
  }

  /** One dead connection reaped. */
  function Reaped(n: Net, cid: nat): Net
    requires cid in n.conns
  {
    var m := Leave(n, cid, n.conns[cid].channels);
    m.(conns := m.conns - {cid}, nicks := if n.conns[cid].nick.Some? then m.nicks - {Lower(n.conns[cid].nick.value)} else m.nicks)
  }

  // --- each keeps the maps consistent ---------------------------------------------------

  lemma LeaveLinks(n: Net, cid: nat, s: set<string>, d: nat, ch: string)
    requires Linked(n)
    ensures Holds(Leave(n, cid, s), ch, d) <==> Holds(n, ch, d) && !(d == cid && ch in s)
    ensures Lists(Leave(n, cid, s), d, ch) <==> Lists(n, d, ch) && !(d == cid && ch in s)
  {
    if Holds(n, ch, d) {
      assert d in n.channels[ch].members.Keys;
    }
  }

  lemma LeaveChannels(n: Net, cid: nat, s: set<string>)
    requires Channels(n)
    ensures Channels(Leave(n, cid, s))
  {
    hide ValidChannel, Lower;
    forall ch | ch in Leave(n, cid, s).channels ensures SoundChannel(ch, Leave(n, cid, s).channels[ch]) {
      assert SoundChannel(ch, n.channels[ch]);
      if ch in s {
        var left := n.channels[ch].members - {cid};
        var d :| d in n.channels[ch].members.Keys && d != cid;
        assert d in left;
      }
    }
  }

  lemma LeaveConns(n: Net, cid: nat, s: set<string>)
    requires Conns(n)
    ensures Conns(Leave(n, cid, s))
  {
    hide ValidNick, Lower;
    if cid in n.conns {
      var c := n.conns[cid];
      assert SoundConn(c);
      assert c.channels - s <= c.channels;
      SubsetSize(c.channels - s, c.channels);
      ConnUpdated(n, cid, c.(channels := c.channels - s));
    }
  }

  lemma ConnUpdated(n: Net, cid: nat, c: Conn)
    requires Conns(n) && cid in n.conns && SoundConn(c)
    ensures |n.conns[cid := c]| == |n.conns|
    ensures Conns(n.(conns := n.conns[cid := c]))
  {
    hide SoundConn;
    MapSize(n.conns, cid, c);
  }

  lemma LeaveNamed(n: Net, cid: nat, s: set<string>)
    requires Named(n)
    ensures Named(Leave(n, cid, s))
  {
    hide Lower;
  }

  lemma LeaveKeeps(n: Net, cid: nat, s: set<string>)
    requires Consistent(n)
    ensures Consistent(Leave(n, cid, s))
  {
    hide Linked, Named, Channels, Conns, Leave;
    LeaveIsLinked(n, cid, s);
    LeaveNamed(n, cid, s);
    LeaveChannels(n, cid, s);
    LeaveConns(n, cid, s);
  }

  lemma LeaveIsLinked(n: Net, cid: nat, s: set<string>)
    requires Linked(n)
    ensures Linked(Leave(n, cid, s))
  {
    hide Leave, Lists, Holds;
    forall d, ch ensures Lists(Leave(n, cid, s), d, ch) <==> Holds(Leave(n, cid, s), ch, d) {
      LeaveLinks(n, cid, s, d, ch);
    }
  }

  lemma EnterLinks(n: Net, cid: nat, name: string, d: nat, ch: string)
    requires cid in n.conns
    ensures Holds(Enter(n, cid, name), ch, d) <==> Holds(n, ch, d) || (d == cid && ch == Lower(name))
    ensures Lists(Enter(n, cid, name), d, ch) <==> Lists(n, d, ch) || (d == cid && ch == Lower(name))
  {
    hide Lower;
  }

  lemma EnterIsLinked(n: Net, cid: nat, name: string)
    requires Linked(n) && cid in n.conns
    ensures Linked(Enter(n, cid, name))
  {
    hide Enter, Lists, Holds, Lower;
    forall d, ch ensures Lists(Enter(n, cid, name), d, ch) <==> Holds(Enter(n, cid, name), ch, d) {
      EnterLinks(n, cid, name, d, ch);
    }
  }

  lemma EnterKeeps(n: Net, cid: nat, name: string)
    requires Consistent(n) && cid in n.conns && n.conns[cid].registered
    requires ValidChannel(name) && |n.conns[cid].channels| < CHANS_PER_USER
    ensures Consistent(Enter(n, cid, name))
  {
    hide Lower, ValidChannel, ValidNick;
    var m, key := Enter(n, cid, name), Lower(name);
    EnterIsLinked(n, cid, name);
    assert Named(m);
    assert SoundConn(n.conns[cid]);
    var c := n.conns[cid].(channels := n.conns[cid].channels + {key});
    ConnUpdated(n, cid, c);
    assert Channels(m) by {
      assert cid in m.channels[key].members;
      assert key in n.channels ==> SoundChannel(key, n.channels[key]);
    }
  }

  lemma {:induction false} JoinKeeps(n: Net, cid: nat, names: seq<string>, keys: seq<string>, i: nat)
    requires Consistent(n) && cid in n.conns && n.conns[cid].registered
    ensures Consistent(JoinFrom(n, cid, names, keys, i))
    ensures cid in JoinFrom(n, cid, names, keys, i).conns
    decreases NAMES_MAX - i
  {
    hide Consistent, Enter;
    if i < NAMES_MAX && i < |names| {
      var m := JoinOne(n, cid, names[i], KeyAt(keys, i));
      if MayEnter(n, cid, names[i], KeyAt(keys, i)) {
        EnterKeeps(n, cid, names[i]);
      }
      EnterKeepsConn(n, cid, names[i]);
      JoinKeeps(m, cid, names, keys, i + 1);
    }
  }

  lemma EnterKeepsConn(n: Net, cid: nat, name: string)
    requires cid in n.conns
    ensures cid in Enter(n, cid, name).conns && Enter(n, cid, name).conns[cid].registered == n.conns[cid].registered
  {
  }

  lemma {:induction false} PartKeeps(n: Net, cid: nat, names: seq<string>, i: nat)
    requires Consistent(n)
    ensures Consistent(PartFrom(n, cid, names, i))
    decreases NAMES_MAX - i
  {
    hide Consistent, Leave, Holds;
    if i < NAMES_MAX && i < |names| {
      LeaveKeeps(n, cid, {Lower(names[i])});
      PartKeeps(PartOne(n, cid, names[i]), cid, names, i + 1);
    }
  }

  /** A change to one connection that leaves its nick and channels alone. */
  lemma ConnKeeps(n: Net, cid: nat, c: Conn)
    requires Consistent(n) && cid in n.conns && SoundConn(c)
    requires c.nick == n.conns[cid].nick && c.channels == n.conns[cid].channels
    ensures Consistent(n.(conns := n.conns[cid := c]))
  {
    hide SoundConn, SoundChannel, Lower;
    ConnUpdated(n, cid, c);
    var m := n.(conns := n.conns[cid := c]);
    assert forall d, ch :: Lists(m, d, ch) == Lists(n, d, ch) && Holds(m, ch, d) == Holds(n, ch, d);
  }

  lemma RegisterKeeps(n: Net, cid: nat)
    requires Consistent(n) && cid in n.conns
    ensures Consistent(TryRegister(n, cid))
  {
    hide ValidNick, Linked, Named, Channels;
    var c := n.conns[cid];
    assert SoundConn(c);
    if !c.registered && c.nick.Some? && c.user.Some? {
      ConnKeeps(n, cid, c.(registered := true));
    }
  }

  lemma RenameKeeps(n: Net, cid: nat, nick: string)
    requires Consistent(n) && cid in n.conns && ValidNick(nick)
    requires Lower(nick) in n.nicks ==> n.nicks[Lower(nick)] == cid
    ensures Consistent(Rename(n, cid, nick))
  {
    hide Lower, SoundChannel, ValidNick;
    var m := Rename(n, cid, nick);
    assert SoundConn(n.conns[cid]);
    ConnUpdated(n, cid, n.conns[cid].(nick := Some(nick)));
    assert forall d, ch :: Lists(m, d, ch) == Lists(n, d, ch) && Holds(m, ch, d) == Holds(n, ch, d);
    assert Linked(m) && Channels(m) && Conns(m);
    RenameNamed(n, cid, nick);
  }

  lemma RenameNamed(n: Net, cid: nat, nick: string)
    requires Named(n) && cid in n.conns
    requires Lower(nick) in n.nicks ==> n.nicks[Lower(nick)] == cid
    ensures Named(Rename(n, cid, nick))
  {
    hide Lower;
  }

  /** A change to one channel that leaves its name and members alone. */
  lemma ChannelKeeps(n: Net, key: string, ch: Channel)
    requires Consistent(n) && key in n.channels
    requires ch.members.Keys == n.channels[key].members.Keys && ch.name == n.channels[key].name
    requires ch.key != Some("") && ch.limit != Some(0)
    ensures Consistent(n.(channels := n.channels[key := ch]))
  {
    hide SoundConn, Lower, ValidChannel;
    var m := n.(channels := n.channels[key := ch]);
    assert SoundChannel(key, n.channels[key]);
    assert ch.members != map[] by {
      assert n.channels[key].members.Keys != {};
    }
    assert forall d, c :: Lists(m, d, c) == Lists(n, d, c) && Holds(m, c, d) == Holds(n, c, d);
  }

  lemma ModesKeep(n: Net, cid: nat, name: string, letters: string, args: seq<string>)
    requires Consistent(n) && IsOp(n, Lower(name), cid)
    ensures var ch := n.channels[Lower(name)];
            Consistent(n.(channels := n.channels[Lower(name) := Apply(ch, Ask(n.nicks, ch.members.Keys, letters, args, true).changes)]))
  {
    hide Lower, Apply, Ask, Linked, Named, Conns, ValidChannel, Legal;
    var ch := n.channels[Lower(name)];
    assert SoundChannel(Lower(name), ch);
    AskedAreLegal(n.nicks, ch.members.Keys, letters, args, true);
    ApplyKeeps(ch, Ask(n.nicks, ch.members.Keys, letters, args, true).changes, n.nicks);
    ChannelKeeps(n, Lower(name), Apply(ch, Ask(n.nicks, ch.members.Keys, letters, args, true).changes));
  }

  lemma TopicKeeps(n: Net, cid: nat, name: string, text: Option<string>)
    requires Consistent(n) && cid in n.conns
    ensures Consistent(TopicChange(n, cid, name, text))
  {
    hide Lower, Linked, Named, Conns, ValidChannel, Clip;
    if Holds(n, Lower(name), cid) {
      assert SoundChannel(Lower(name), n.channels[Lower(name)]);
      var m := TopicChange(n, cid, name, text);
      if m != n {
        ChannelKeeps(n, Lower(name), m.channels[Lower(name)]);
      }
    }
  }

  lemma UserKeeps(n: Net, cid: nat, params: seq<string>)
    requires Consistent(n) && cid in n.conns
    ensures Consistent(UserChange(n, cid, params))
  {
    hide Linked, Named, Channels, ValidNick, UserName, TryRegister;
    if !n.conns[cid].registered && |params| >= 4 {
      var user := UserName(params[0], 12);
      var c := n.conns[cid].(user := Some(if user == "" then "u" else user));
      assert SoundConn(n.conns[cid]);
      ConnKeeps(n, cid, c);
      RegisterKeeps(n.(conns := n.conns[cid := c]), cid);
    }
  }

  lemma CapKeeps(n: Net, cid: nat, sub: string)
    requires Consistent(n) && cid in n.conns
    ensures Consistent(CapChange(n, cid, sub))
  {
    hide Linked, Named, Channels, ValidNick, TryRegister;
    var c := n.conns[cid];
    assert SoundConn(c);
    ConnKeeps(n, cid, c.(capping := true));
    ConnKeeps(n, cid, c.(capping := false));
    RegisterKeeps(n.(conns := n.conns[cid := c.(capping := false)]), cid);
  }

  lemma NickKeeps(n: Net, cid: nat, nick: Option<string>)
    requires Consistent(n) && cid in n.conns
    ensures Consistent(NickChange(n, cid, nick))
  {
    hide Consistent, ValidNick, TryRegister, Lower;
    if nick.Some? && ValidNick(nick.value) && (Lower(nick.value) in n.nicks ==> n.nicks[Lower(nick.value)] == cid) {
      RenameKeeps(n, cid, nick.value);
      RegisterKeeps(Rename(n, cid, nick.value), cid);
    }
  }

  /** Every command keeps the three maps consistent. */
  lemma HandleKeeps(n: Net, cid: nat, cmd: Command)
    requires Consistent(n) && cid in n.conns
    ensures Consistent(Handle(n, cid, cmd))
  {
    hide Consistent, CapChange, NickChange, UserChange, JoinFrom, Leave, PartFrom, TopicChange, Lower, Apply, Ask, BanProbe, IsOp, Holds;
    match cmd
    case Cap(sub) => CapKeeps(n, cid, sub);
    case Nick(nick) => NickKeeps(n, cid, nick);
    case User(params) => UserKeeps(n, cid, params);
    case Join(names, keys) => if n.conns[cid].registered { JoinKeeps(n, cid, names, keys, 0); }
    case LeaveAll => LeaveKeeps(n, cid, n.conns[cid].channels);
    case Part(names) => PartKeeps(n, cid, names, 0);
    case Topic(name, text) => TopicKeeps(n, cid, name, text);
    case Mode(name, letters, args) =>
      if letters.Some? && IsOp(n, Lower(name), cid) { ModesKeep(n, cid, name, letters.value, args); }
    case Kick(params) =>
      if MayKick(n, cid, params) { LeaveKeeps(n, n.nicks[Lower(params[1])], {Lower(params[0])}); }
    case Other =>
  }

  lemma AcceptKeeps(n: Net)
    requires Consistent(n)
    ensures Consistent(Accepted(n))
  {
    hide Named, Conns, SoundChannel;
    if |n.conns| < MAX_CLIENTS {
      AcceptNames(n);
      var m := Accepted(n);
      assert forall d, ch :: Lists(m, d, ch) == Lists(n, d, ch) && Holds(m, ch, d) == Holds(n, ch, d);
    }
  }

  lemma AcceptNames(n: Net)
    requires Named(n) && Conns(n) && |n.conns| < MAX_CLIENTS
    ensures Named(Accepted(n)) && Conns(Accepted(n)) && n.nextCid !in n.conns
  {
    hide Lower, SoundConn;
    var c := Conn(None, None, false, false, {});
    assert SoundConn(c) by {
      Blank(c);
    }
    MapSize(n.conns, n.nextCid, c);
  }

  lemma Blank(c: Conn)
    requires c == Conn(None, None, false, false, {})
    ensures SoundConn(c)
  {
  }

  lemma ReapKeeps(n: Net, cid: nat)
    requires Consistent(n) && cid in n.conns
    ensures Consistent(Reaped(n, cid))
    ensures forall ch :: !Holds(Reaped(n, cid), ch, cid)
  {
    hide Lower, Leave, SoundChannel;
    var m := Leave(n, cid, n.conns[cid].channels);
    LeaveKeeps(n, cid, n.conns[cid].channels);
    LeaveConn(n, cid, n.conns[cid].channels);
    forall ch ensures !Holds(m, ch, cid) && !Lists(m, cid, ch) {
      LeaveLinks(n, cid, n.conns[cid].channels, cid, ch);
    }
    DropKeeps(m, cid);
  }

  lemma LeaveConn(n: Net, cid: nat, s: set<string>)
    requires cid in n.conns
    ensures Leave(n, cid, s).nicks == n.nicks && Leave(n, cid, s).conns == n.conns[cid := n.conns[cid].(channels := n.conns[cid].channels - s)]
  {
  }

  lemma DropKeeps(m: Net, cid: nat)
    requires Consistent(m) && cid in m.conns && m.conns[cid].channels == {}
    ensures Consistent(m.(conns := m.conns - {cid}, nicks := if m.conns[cid].nick.Some? then m.nicks - {Lower(m.conns[cid].nick.value)} else m.nicks))
  {
    hide Lower, SoundChannel, SoundConn;
    var d := m.(conns := m.conns - {cid}, nicks := if m.conns[cid].nick.Some? then m.nicks - {Lower(m.conns[cid].nick.value)} else m.nicks);
    assert forall e, ch :: Lists(d, e, ch) == Lists(m, e, ch) && Holds(d, ch, e) == Holds(m, ch, e);
    assert d.conns.Keys <= m.conns.Keys;
    SubsetSize(d.conns.Keys, m.conns.Keys);
    assert |d.conns| == |d.conns.Keys| && |m.conns| == |m.conns.Keys|;
  }

  // --- runs -----------------------------------------------------------------------------

  datatype Event = Accept | Line(cid: nat, cmd: Command) | Reap(dead: nat)

  function Step(n: Net, e: Event): Net {
    match e
    case Accept => Accepted(n)
    case Line(cid, cmd) => if cid in n.conns then Handle(n, cid, cmd) else n
    case Reap(cid) => if cid in n.conns then Reaped(n, cid) else n
  }

  function Run(n: Net, es: seq<Event>): Net
    decreases |es|
  {
    if es == [] then n else Run(Step(n, es[0]), es[1..])
  }

  const EMPTY := Net(map[], map[], map[], 1)

  lemma {:induction false} RunKeeps(n: Net, es: seq<Event>)
    requires Consistent(n)
    ensures Consistent(Run(n, es))
    decreases |es|
  {
    hide Consistent, Handle, Reaped, Accepted;
    if es != [] {
      match es[0] {
        case Accept => AcceptKeeps(n);
        case Line(cid, cmd) => if cid in n.conns { HandleKeeps(n, cid, cmd); }
        case Reap(cid) => if cid in n.conns { ReapKeeps(n, cid); }
      }
      RunKeeps(Step(n, es[0]), es[1..]);
    }
  }

  /** Whatever clients connect, say and leave, the maps stay consistent. */
  lemma EveryNetIsConsistent(es: seq<Event>)
    ensures Consistent(Run(EMPTY, es))
  {
    assert Consistent(EMPTY);
    RunKeeps(EMPTY, es);
  }

  /** So no two clients go by one nick, in whatever case. */
  lemma NickIsHeldOnce(es: seq<Event>, a: nat, b: nat)
    requires var n := Run(EMPTY, es);
             && a in n.conns && b in n.conns && n.conns[a].nick.Some? && n.conns[b].nick.Some?
             && Lower(n.conns[a].nick.value) == Lower(n.conns[b].nick.value)
    ensures a == b
  {
    hide Run, Lower;
    EveryNetIsConsistent(es);
  }

  // --- who can do what to whom ----------------------------------------------------------

  lemma ApplyMembers(ch: Channel, c: Change)
    ensures ApplyOne(ch, c).members.Keys == ch.members.Keys
  {
  }

  lemma {:induction false} ModesHold(n: Net, key: string, cs: seq<Change>, d: nat, ch: string)
    requires key in n.channels
    ensures Holds(n.(channels := n.channels[key := Apply(n.channels[key], cs)]), ch, d) <==> Holds(n, ch, d)
    decreases |cs|
  {
    if cs == [] {
      assert n.channels[key := n.channels[key]] == n.channels;
    } else {
      var one := n.(channels := n.channels[key := ApplyOne(n.channels[key], cs[0])]);
      ApplyMembers(n.channels[key], cs[0]);
      ModesHold(one, key, cs[1..], d, ch);
      assert one.channels[key := Apply(one.channels[key], cs[1..])] == n.channels[key := Apply(n.channels[key], cs)];
      assert Holds(one, ch, d) <==> Holds(n, ch, d) by {
        assert d in n.channels[key].members.Keys <==> d in one.channels[key].members.Keys;
      }
    }
  }

  /** What joining does to any one membership, name after name. */
  lemma {:induction false} JoinHolds(n: Net, cid: nat, names: seq<string>, keys: seq<string>, i: nat, d: nat, ch: string)
    requires Linked(n) && cid in n.conns
    ensures var m := JoinFrom(n, cid, names, keys, i);
            && (Holds(n, ch, d) ==> Holds(m, ch, d))
            && (Holds(m, ch, d) && !Holds(n, ch, d) ==> d == cid && LetIn(n, ch, keys))
            && (IsOp(m, ch, d) && !IsOp(n, ch, d) ==> d == cid && ch !in n.channels)
    decreases NAMES_MAX - i
  {
    hide Enter, MayEnter, Lower, LetIn, Linked, Holds, IsOp;
    if i < NAMES_MAX && i < |names| {
      var m := JoinOne(n, cid, names[i], KeyAt(keys, i));
      if MayEnter(n, cid, names[i], KeyAt(keys, i)) {
        EnterHolds(n, cid, names[i], KeyAt(keys, i), keys, d, ch);
        EnterKeepsConn(n, cid, names[i]);
        EnterIsLinked(n, cid, names[i]);
      }
      JoinHolds(m, cid, names, keys, i + 1, d, ch);
    }
  }

  /** The channel was not there, or a key was given that fits and there was room. */
  predicate LetIn(n: Net, ch: string, keys: seq<string>) {
    ch in n.channels ==>
      && (n.channels[ch].key.Some? ==> n.channels[ch].key.value in keys)
      && (n.channels[ch].limit.Some? ==> |n.channels[ch].members| < n.channels[ch].limit.value)
  }

  lemma EnterHolds(n: Net, cid: nat, name: string, given: Option<string>, keys: seq<string>, d: nat, ch: string)
    requires Linked(n) && cid in n.conns && MayEnter(n, cid, name, given)
    requires given.Some? ==> given.value in keys
    ensures var m := Enter(n, cid, name);
            && (Holds(n, ch, d) ==> Holds(m, ch, d))
            && (Holds(m, ch, d) && !Holds(n, ch, d) ==> d == cid && LetIn(n, ch, keys))
            && (IsOp(m, ch, d) && !IsOp(n, ch, d) ==> d == cid && ch !in n.channels)
            && (ch !in m.channels ==> ch !in n.channels)
            && (LetIn(m, ch, keys) && !Holds(m, ch, d) ==> LetIn(n, ch, keys))
  {
    hide Lower, ValidChannel;
    assert !Lists(n, cid, Lower(name));
  }

  lemma {:induction false} PartHolds(n: Net, cid: nat, names: seq<string>, i: nat, d: nat, ch: string)
    requires Linked(n)
    ensures var m := PartFrom(n, cid, names, i);
            (Holds(m, ch, d) ==> Holds(n, ch, d)) && (Holds(n, ch, d) && !Holds(m, ch, d) ==> d == cid)
            && (IsOp(m, ch, d) ==> IsOp(n, ch, d))
    decreases NAMES_MAX - i
  {
    hide Leave, Lower, Linked, Holds, IsOp;
    if i < NAMES_MAX && i < |names| {
      LeaveIsLinked(n, cid, {Lower(names[i])});
      LeaveLinks(n, cid, {Lower(names[i])}, d, ch);
      LeaveOps(n, cid, {Lower(names[i])}, d, ch);
      PartHolds(PartOne(n, cid, names[i]), cid, names, i + 1, d, ch);
    }
  }

  lemma LeaveOps(n: Net, cid: nat, s: set<string>, d: nat, ch: string)
    ensures IsOp(Leave(n, cid, s), ch, d) ==> IsOp(n, ch, d)
  {
  }

  lemma SameChannels(n: Net, cid: nat, cmd: Command)
    requires cid in n.conns && (cmd.Cap? || cmd.Nick? || cmd.User? || cmd.Other? || !n.conns[cid].registered)
    ensures Handle(n, cid, cmd).channels == n.channels
  {
    hide Lower, ValidNick, UserName, JoinFrom, PartFrom, Leave, TopicChange, ModesChange, Kicking;
  }

  lemma TopicHolds(n: Net, cid: nat, name: string, text: Option<string>, d: nat, ch: string)
    requires cid in n.conns
    ensures Holds(TopicChange(n, cid, name, text), ch, d) <==> Holds(n, ch, d)
    ensures IsOp(TopicChange(n, cid, name, text), ch, d) <==> IsOp(n, ch, d)
  {
    hide Lower, Clip;
  }

  lemma ModesAreOps(n: Net, cid: nat, name: string, letters: Option<string>, args: seq<string>, d: nat, ch: string)
    ensures var m := ModesChange(n, cid, name, letters, args);
            && (Holds(m, ch, d) <==> Holds(n, ch, d))
            && (m.channels.Keys == n.channels.Keys)
            && (ch in n.channels && m.channels[ch] != n.channels[ch] ==> IsOp(n, ch, cid))
  {
    hide Lower, Ask, Apply, BanProbe;
    var key := Lower(name);
    if key in n.channels && letters.Some? {
      ModesHold(n, key, Ask(n.nicks, n.channels[key].members.Keys, letters.value, args, true).changes, d, ch);
    }
  }

  /** No command takes a client out of a channel but its own, or a kick by an operator there.
      None brings one in but its own, past the key and the limit. None makes an operator but
      an operator's there, or the opening of a channel. */
  lemma Authority(n: Net, cid: nat, cmd: Command, d: nat, ch: string)
    requires Consistent(n) && cid in n.conns
    ensures var m := Handle(n, cid, cmd);
            && (Holds(n, ch, d) && !Holds(m, ch, d) ==> d == cid || (cmd.Kick? && IsOp(n, ch, cid)))
            && (Holds(m, ch, d) && !Holds(n, ch, d) ==> d == cid && cmd.Join? && n.conns[cid].registered && LetIn(n, ch, cmd.keys))
            && (IsOp(m, ch, d) && !IsOp(n, ch, d) ==> (d == cid && ch !in n.channels) || IsOp(n, ch, cid))
  {
    hide Lower, Leave, JoinFrom, PartFrom, TopicChange, ModesChange, Named, Channels, Conns, Linked, LetIn, CapChange, NickChange, UserChange;
    if cmd.Cap? || cmd.Nick? || cmd.User? || cmd.Other? || !n.conns[cid].registered {
      SameChannels(n, cid, cmd);
    } else {
      match cmd
      case Join(names, keys) => JoinHolds(n, cid, names, keys, 0, d, ch);
      case LeaveAll =>
        LeaveLinks(n, cid, n.conns[cid].channels, d, ch);
        LeaveOps(n, cid, n.conns[cid].channels, d, ch);
      case Part(names) => PartHolds(n, cid, names, 0, d, ch);
      case Topic(name, text) => TopicHolds(n, cid, name, text, d, ch);
      case Mode(name, letters, args) => ModesAreOps(n, cid, name, letters, args, d, ch);
      case Kick(params) =>
        if MayKick(n, cid, params) {
          LeaveLinks(n, n.nicks[Lower(params[1])], {Lower(params[0])}, d, ch);
          LeaveOps(n, n.nicks[Lower(params[1])], {Lower(params[0])}, d, ch);
        }
    }
  }
}
