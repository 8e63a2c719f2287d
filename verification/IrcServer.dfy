/** IRC/src/server.rs: the server as it runs, with its maps changed in place by every handler,
    and the output queues beside them, against what `IrcState` says each command does. */
module IrcServer {
  import opened Ascii
  import opened Common
  import opened IrcWords
  import opened Utf8
  import opened IrcModes
  import opened IrcState

  const OUTBUF_MAX := 256 * 1024

  /** The output side of a connection: bytes not yet written, and whether it is to be reaped. */
  datatype Wire = Wire(queued: nat, quit: bool)

  /** `push_line`: a line cut to size, in whole characters, is queued, or the queue is full and
      the client must go. */
  function PushLine(w: Wire, line: string): (r: Wire)
    ensures w.queued <= OUTBUF_MAX ==> r.queued <= OUTBUF_MAX
    ensures w.quit ==> r == w
    ensures !r.quit ==> w.queued < r.queued <= w.queued + LINE_MAX + 2
    ensures !r.quit && ByteLen(line) <= LINE_MAX ==> r.queued == w.queued + ByteLen(line) + 2
  {
    var end := ByteLen(Clip(line, LINE_MAX));
    ClipIs(line, LINE_MAX);
    if w.quit then w
    else if w.queued + end + 2 > OUTBUF_MAX then w.(quit := true)
    else w.(queued := w.queued + end + 2)
  }

  lemma LeaveOne(n: Net, cid: nat, key: string)
    requires Channels(n)
    ensures key !in n.channels ==> Leave(n, cid, {key}).channels == n.channels
    ensures key in n.channels ==>
              var left := n.channels[key].members - {cid};
              Leave(n, cid, {key}).channels
              == if left == map[] then n.channels - {key} else n.channels[key := n.channels[key].(members := left)]
  {
    hide ValidChannel, Lower;
    if key in n.channels {
      EmptyOrNot(n.channels[key].members, cid);
      assert forall ch :: ch in n.channels && ch != key ==> SoundChannel(ch, n.channels[ch]);
    }
  }

  lemma EmptyOrNot(m: map<nat, Member>, cid: nat)
    ensures m - {cid} == map[] <==> m.Keys <= {cid}
  {
    if !(m.Keys <= {cid}) {
      var d :| d in m.Keys && d != cid;
      assert d in m - {cid};
    }
  }

  lemma LeaveMore(n: Net, cid: nat, a: set<string>, b: set<string>)
    requires Channels(n)
    ensures Leave(Leave(n, cid, a), cid, b) == Leave(n, cid, a + b)
  {
    hide ValidChannel, Lower;
    var x, y := Leave(Leave(n, cid, a), cid, b), Leave(n, cid, a + b);
    forall ch ensures ch in x.channels <==> ch in y.channels {
      LeftEmpty(n, cid, a, b, ch);
    }
    forall ch | ch in x.channels ensures x.channels[ch] == y.channels[ch] {
      LeftEmpty(n, cid, a, b, ch);
    }
    assert x.channels == y.channels;
    if cid in n.conns {
      assert n.conns[cid].channels - a - b == n.conns[cid].channels - (a + b);
    }
  }

  lemma LeftEmpty(n: Net, cid: nat, a: set<string>, b: set<string>, ch: string)
    ensures var x, y := Leave(Leave(n, cid, a), cid, b), Leave(n, cid, a + b);
            (ch in x.channels <==> ch in y.channels) && (ch in x.channels ==> x.channels[ch] == y.channels[ch])
  {
    if ch in n.channels {
      var m := n.channels[ch].members;
      assert m - {cid} - {cid} == m - {cid};
      assert (m - {cid}).Keys == m.Keys - {cid};
      assert (m - {cid}).Keys <= {cid} <==> m.Keys <= {cid};
    }
  }

  lemma LeaveNothing(n: Net, cid: nat)
    requires cid in n.conns
    ensures Leave(n, cid, {}) == n
  {
    assert n.conns[cid].channels - {} == n.conns[cid].channels;
    assert Leave(n, cid, {}).conns == n.conns;
  }

  lemma LinkedBoth(n: Net, cid: nat)
    requires Consistent(n) && cid in n.conns
    ensures forall ch :: ch in n.conns[cid].channels ==> Holds(n, ch, cid) && Lower(n.channels[ch].name) == ch
    ensures forall ch :: Holds(n, ch, cid) ==> ch in n.conns[cid].channels
  {
    hide Lower, ValidChannel;
    forall ch | ch in n.conns[cid].channels ensures Holds(n, ch, cid) && Lower(n.channels[ch].name) == ch {
      assert Lists(n, cid, ch);
      assert SoundChannel(ch, n.channels[ch]);
    }
    forall ch | Holds(n, ch, cid) ensures ch in n.conns[cid].channels {
      assert Lists(n, cid, ch);
    }
  }

  lemma NameOf(n: Net, key: string)
    requires Consistent(n) && key in n.channels
    ensures Lower(n.channels[key].name) == key && n.channels[key].members != map[]
  {
    hide Lower, ValidChannel;
    assert SoundChannel(key, n.channels[key]);
  }

  lemma HasChannels(n: Net)
    requires Consistent(n)
    ensures Channels(n)
  {
  }

  lemma NickLeads(n: Net, nick: string)
    requires Consistent(n) && Lower(nick) in n.nicks
    ensures n.nicks[Lower(nick)] in n.conns
  {
    hide Lower;
  }

  class Server {
    var conns: map<nat, Conn>
    var nicks: map<string, nat>
    var channels: map<string, Channel>
    var nextCid: nat
    var wires: map<nat, Wire>

    ghost function View(): Net
      reads this
    {
      Net(conns, nicks, channels, nextCid)
    }

    ghost predicate Wired()
      reads this
    {
      wires.Keys == conns.Keys && forall cid :: cid in wires ==> wires[cid].queued <= OUTBUF_MAX
    }

    ghost predicate Valid()
      reads this
    {
      Consistent(View()) && Wired()
    }

    constructor ()
      ensures Valid() && View() == EMPTY
    {
      conns, nicks, channels, nextCid, wires := map[], map[], map[], 1, map[];
    }

    // --- output -------------------------------------------------------------------------

    /** A line of whatever size to one connection, if it is there. */
    method Send(cid: nat)
      requires Wired()
      modifies `wires
      ensures Wired() && wires.Keys == old(wires.Keys)
      ensures forall d :: d in wires && d != cid ==> wires[d] == old(wires[d])
      ensures cid in wires && old(wires[cid]).quit ==> wires[cid].quit
    {
      if cid in wires {
        var line: string := *;
        wires := wires[cid := PushLine(wires[cid], line)];
      }
    }

    /** A line to each of several. Nobody's turn to go is taken back. */
    method SendAll(cids: set<nat>)
      requires Wired()
      modifies `wires
      ensures Wired() && wires.Keys == old(wires.Keys)
      ensures forall d :: d in wires && d !in cids ==> wires[d] == old(wires[d])
      ensures forall d :: d in wires && old(wires[d]).quit ==> wires[d].quit
    {
      var left := cids;
      while left != {}
        invariant left <= cids
        invariant Wired() && wires.Keys == old(wires.Keys)
        invariant forall d :: d in wires && d !in cids ==> wires[d] == old(wires[d])
        invariant forall d :: d in wires && old(wires[d]).quit ==> wires[d].quit
      {
        var cid :| cid in left;
        Send(cid);
        left := left - {cid};
      }
    }

    method Bcast(key: string)
      requires Wired()
      modifies `wires
      ensures Wired() && wires.Keys == old(wires.Keys)
      ensures forall d :: d in wires && old(wires[d]).quit ==> wires[d].quit
    {
      if key in channels {
        SendAll(channels[key].members.Keys);
      }
    }

    /** `channel_peers`: everyone on a channel with `cid`. */
    function Peers(cid: nat): set<nat>
      reads this
    {
      if cid !in conns then {}
      else set ch, d | ch in conns[cid].channels && ch in channels && d in channels[ch].members :: d
    }

    // --- coming and going ---------------------------------------------------------------

    method Accept()
      requires Valid()
      modifies this
      ensures Valid() && View() == Accepted(old(View()))
    {
      hide Consistent;
      AcceptKeeps(View());
      if |conns| >= MAX_CLIENTS {
        return;
      }
      var cid := nextCid;
      nextCid := nextCid + 1;
      conns := conns[cid := Conn(None, None, false, false, {})];
      wires := wires[cid := Wire(0, false)];
      Send(cid);
    }

    /** `do_part`: told, then taken off the channel's list, then off the client's. */
    method DoPart(cid: nat, display: string)
      requires Valid()
      modifies this
      ensures Valid() && View() == Leave(old(View()), cid, {Lower(display)})
      ensures cid in old(conns) ==> cid in conns && conns[cid].registered == old(conns[cid].registered)
    {
      hide Consistent, Leave, Lower, Channels;
      var key := Lower(display);
      HasChannels(View());
      LeaveKeeps(View(), cid, {key});
      LeaveOne(View(), cid, key);
      LeaveRest(View(), cid, {key});
      Bcast(key);
      if key in channels {
        var left := channels[key].members - {cid};
        channels := if left == map[] then channels - {key} else channels[key := channels[key].(members := left)];
      }
      if cid in conns {
        conns := conns[cid := conns[cid].(channels := conns[cid].channels - {key})];
      }
    }

    /** `JOIN 0`. */
    method LeaveEvery(cid: nat)
      requires Valid() && cid in conns
      modifies this
      ensures Valid() && View() == Leave(old(View()), cid, old(conns[cid].channels))
    {
      hide Consistent, Leave, Lower, Channels, Holds;
      ghost var was := View();
      var all := conns[cid].channels;
      var left := all;
      LinkedBoth(was, cid);
      HasChannels(was);
      LeaveNothing(was, cid);
      ghost var done: set<string> := {};
      while left != {}
        invariant left <= all && done == all - left
        invariant Valid() && cid in conns
        invariant View() == Leave(was, cid, done)
      {
        var ch :| ch in left;
        LeaveRest(was, cid, done);
        LinkedBoth(View(), cid);
        assert ch in conns[cid].channels;
        assert Holds(View(), ch, cid);
        HoldsIsThere(View(), ch, cid);
        DoPart(cid, channels[ch].name);
        LeaveMore(was, cid, done, {ch});
        left := left - {ch};
        done := done + {ch};
      }
      assert done == all;
    }

    /** One name of a JOIN with the key that came with it. */
    method JoinName(cid: nat, name: string, given: Option<string>)
      requires Valid() && cid in conns && conns[cid].registered
      modifies this
      ensures Valid() && View() == JoinOne(old(View()), cid, name, given)
      ensures cid in conns && conns[cid].registered
    {
      hide Consistent, Lower, ValidChannel;
      var key := Lower(name);
      if !ValidChannel(name) {
        Send(cid);
        return;
      }
      if key in conns[cid].channels {
        return;
      }
      if |conns[cid].channels| >= CHANS_PER_USER {
        Send(cid);
        return;
      }
      var isNew := key !in channels;
      if !isNew {
        var ch := channels[key];
        if ch.key.Some? && given != Some(ch.key.value) {
          Send(cid);
          return;
        }
        if ch.limit.Some? && |ch.members| >= ch.limit.value {
          Send(cid);
          return;
        }
      }
      EnterKeeps(View(), cid, name);
      var ch := if isNew then NewChannel(name) else channels[key];
      channels := channels[key := ch.(members := ch.members[cid := Member(isNew, false)])];
      conns := conns[cid := conns[cid].(channels := conns[cid].channels + {key})];
      Bcast(key);
      Send(cid);
    }

    method CmdJoin(cid: nat, names: seq<string>, keys: seq<string>)
      requires Valid() && cid in conns && conns[cid].registered
      modifies this
      ensures Valid() && View() == JoinFrom(old(View()), cid, names, keys, 0)
    {
      hide Consistent, JoinOne, Wired;
      var i := 0;
      while i < |names| && i < NAMES_MAX
        invariant 0 <= i <= NAMES_MAX
        invariant Valid() && cid in conns && conns[cid].registered
        invariant JoinFrom(View(), cid, names, keys, i) == JoinFrom(old(View()), cid, names, keys, 0)
        decreases NAMES_MAX - i
      {
        JoinName(cid, names[i], KeyAt(keys, i));
        i := i + 1;
      }
    }

    method CmdPart(cid: nat, names: seq<string>)
      requires Valid()
      modifies this
      ensures Valid() && View() == PartFrom(old(View()), cid, names, 0)
    {
      hide Consistent, Leave, Lower, Wired;
      var i := 0;
      while i < |names| && i < NAMES_MAX
        invariant 0 <= i <= NAMES_MAX
        invariant Valid()
        invariant PartFrom(View(), cid, names, i) == PartFrom(old(View()), cid, names, 0)
        decreases NAMES_MAX - i
      {
        PartName(cid, names[i]);
        i := i + 1;
      }
    }

    method PartName(cid: nat, name: string)
      requires Valid()
      modifies this
      ensures Valid() && View() == PartOne(old(View()), cid, name)
    {
      hide Consistent, Leave, Lower;
      var key := Lower(name);
      if key !in channels || cid !in channels[key].members {
        Send(cid);
        return;
      }
      NameOf(View(), key);
      DoPart(cid, channels[key].name);
    }

    // --- names --------------------------------------------------------------------------

    method Register(cid: nat)
      requires Valid() && cid in conns
      modifies this
      ensures Valid() && View() == TryRegister(old(View()), cid)
    {
      hide Consistent;
      RegisterKeeps(View(), cid);
      var c := conns[cid];
      if !(!c.registered && !c.capping && c.nick.Some? && c.user.Some?) {
        return;
      }
      conns := conns[cid := c.(registered := true)];
      Send(cid);
    }

    method CmdNick(cid: nat, nick: Option<string>)
      requires Valid() && cid in conns
      modifies this
      ensures Valid() && View() == NickChange(old(View()), cid, nick)
    {
      hide Consistent, ValidNick, Lower, TryRegister;
      if nick.None? || !ValidNick(nick.value) {
        Send(cid);
        return;
      }
      var lower := Lower(nick.value);
      if lower in nicks && nicks[lower] != cid {
        Send(cid);
        return;
      }
      RenameKeeps(View(), cid, nick.value);
      var wasRegistered, oldNick := conns[cid].registered, conns[cid].nick;
      if oldNick.Some? {
        nicks := nicks - {Lower(oldNick.value)};
      }
      nicks := nicks[lower := cid];
      conns := conns[cid := conns[cid].(nick := nick)];
      if wasRegistered {
        SendAll(Peers(cid) + {cid});
      } else {
        Register(cid);
      }
    }

    method CmdUser(cid: nat, params: seq<string>)
      requires Valid() && cid in conns
      modifies this
      ensures Valid() && View() == UserChange(old(View()), cid, params)
    {
      hide Consistent, ValidNick, TryRegister, UserName;
      if conns[cid].registered || |params| < 4 {
        Send(cid);
        return;
      }
      var user := UserName(params[0], 12);
      if user == "" {
        user := "u";
      }
      UserSet(View(), cid, user);
      conns := conns[cid := conns[cid].(user := Some(user))];
      Register(cid);
    }

    method CmdCap(cid: nat, sub: string)
      requires Valid() && cid in conns
      modifies this
      ensures Valid() && View() == CapChange(old(View()), cid, sub)
    {
      hide Consistent, TryRegister;
      CapSet(View(), cid);
      if sub == "LS" || sub == "LIST" {
        if !conns[cid].registered {
          conns := conns[cid := conns[cid].(capping := true)];
        }
        Send(cid);
      } else if sub == "END" {
        conns := conns[cid := conns[cid].(capping := false)];
        Register(cid);
      } else {
        Send(cid);
      }
    }

    // --- channel operators --------------------------------------------------------------

    method CmdTopic(cid: nat, name: string, text: Option<string>)
      requires Valid() && cid in conns
      modifies this
      ensures Valid() && View() == TopicChange(old(View()), cid, name, text)
    {
      hide Consistent, Lower, Clip;
      TopicKeeps(View(), cid, name, text);
      var key := Lower(name);
      if key !in channels || text.None? {
        Send(cid);
        return;
      }
      var ch := channels[key];
      if cid !in ch.members {
        Send(cid);
        return;
      }
      if ch.topicLocked && !ch.members[cid].op {
        Send(cid);
        return;
      }
      var cut := Clip(text.value, TOPIC_MAX);
      var nick := if conns[cid].nick.Some? then conns[cid].nick.value else "*";
      channels := channels[key := ch.(topic := if cut == "" then None else Some(cut), topicBy := nick)];
      Bcast(key);
    }

    method CmdMode(cid: nat, name: string, letters: Option<string>, args: seq<string>)
      requires Valid() && cid in conns
      modifies this
      ensures Valid() && View() == ModesChange(old(View()), cid, name, letters, args)
    {
      hide Consistent, Lower, Ask, Apply, BanProbe, Letters, Args;
      var key := Lower(name);
      if name == "" || name[0] != '#' || key !in channels || letters.None? || BanProbe(letters.value, args) {
        Send(cid);
        return;
      }
      var ch := channels[key];
      if cid !in ch.members || !ch.members[cid].op {
        Send(cid);
        return;
      }
      var asked := Validate(nicks, ch.members.Keys, letters.value, args);
      ModesKeep(View(), cid, name, letters.value, args);
      if asked.changes == [] {
        ApplyNone(ch);
        assert channels[key := ch] == channels;
        return;
      }
      var told, toldArgs;
      ch, told, toldArgs := ApplyAll(ch, asked.changes);
      channels := channels[key := ch];
      Bcast(key);
    }

    method CmdKick(cid: nat, params: seq<string>)
      requires Valid() && cid in conns
      modifies this
      ensures Valid() && View() == Kicking(old(View()), cid, params)
    {
      hide Consistent, Lower, Leave, Channels;
      if |params| < 2 {
        Send(cid);
        return;
      }
      var key := Lower(params[0]);
      if key !in channels || cid !in channels[key].members || !channels[key].members[cid].op {
        Send(cid);
        return;
      }
      if Lower(params[1]) !in nicks || nicks[Lower(params[1])] !in channels[key].members {
        Send(cid);
        return;
      }
      var target := nicks[Lower(params[1])];
      HasChannels(View());
      LeaveKeeps(View(), target, {key});
      LeaveOne(View(), target, key);
      LeaveRest(View(), target, {key});
      NickLeads(View(), params[1]);
      Bcast(key);
      var left := channels[key].members - {target};
      channels := if left == map[] then channels - {key} else channels[key := channels[key].(members := left)];
      conns := conns[target := conns[target].(channels := conns[target].channels - {key})];
    }

    /** `handle_line`, for the commands that touch the maps. */
    method HandleLine(cid: nat, cmd: Command)
      requires Valid() && cid in conns
      modifies this
      ensures Valid() && View() == Handle(old(View()), cid, cmd)
    {
      hide Consistent, CapChange, NickChange, UserChange, JoinFrom, Leave, PartFrom, TopicChange, ModesChange, Kicking;
      if cmd.Cap? {
        CmdCap(cid, cmd.sub);
      } else if cmd.Nick? {
        CmdNick(cid, cmd.nick);
      } else if cmd.User? {
        CmdUser(cid, cmd.params);
      } else if !conns[cid].registered {
        Send(cid);
      } else if cmd.Join? {
        CmdJoin(cid, cmd.names, cmd.keys);
      } else if cmd.LeaveAll? {
        LeaveEvery(cid);
      } else if cmd.Part? {
        CmdPart(cid, cmd.names);
      } else if cmd.Topic? {
        CmdTopic(cid, cmd.name, cmd.text);
      } else if cmd.Mode? {
        CmdMode(cid, cmd.name, cmd.letters, cmd.args);
      } else if cmd.Kick? {
        CmdKick(cid, cmd.params);
      } else {
        Send(cid);
      }
    }

    // --- reaping ------------------------------------------------------------------------

    /** The channels of a dead connection, on the channels' side only. */
    method LeaveBehind(cid: nat)
      requires Valid() && cid in conns
      modifies `channels
      ensures channels == Leave(old(View()), cid, conns[cid].channels).channels
    {
      hide Consistent, Leave, Lower, Channels;
      ghost var was := View();
      var all := conns[cid].channels;
      var left := all;
      HasChannels(was);
      LeaveNothing(was, cid);
      ghost var done: set<string> := {};
      while left != {}
        invariant left <= all && done == all - left
        invariant channels == Leave(was, cid, done).channels
      {
        var ch :| ch in left;
        ghost var now := Leave(was, cid, done);
        LeaveChannels(was, cid, done);
        LeaveOne(now, cid, ch);
        LeaveMore(was, cid, done, {ch});
        if ch in channels {
          var rest := channels[ch].members - {cid};
          channels := if rest == map[] then channels - {ch} else channels[ch := channels[ch].(members := rest)];
        }
        left := left - {ch};
        done := done + {ch};
      }
      assert done == all;
    }

    method ReapOne(cid: nat)
      requires Valid() && cid in conns
      modifies this
      ensures Valid() && View() == Reaped(old(View()), cid)
      ensures conns == old(conns) - {cid}
      ensures forall ch, d :: Holds(View(), ch, d) <==> Holds(old(View()), ch, d) && d != cid
      ensures forall d :: d in wires && old(wires[d]).quit ==> wires[d].quit
    {
      hide Consistent, Leave, Lower, Holds, Reaped, Peers;
      ghost var was := View();
      ReapKeeps(was, cid);
      ReapedHolds(was, cid);
      ReapedIs(was, cid);
      LeaveRest(was, cid, conns[cid].channels);
      var peers := Peers(cid) - {cid};
      LeaveBehind(cid);
      if conns[cid].registered {
        SendAll(peers);
      }
      if conns[cid].nick.Some? {
        nicks := nicks - {Lower(conns[cid].nick.value)};
      }
      conns := conns - {cid};
      wires := wires - {cid};
    }

    /** Just the connections that were to go are gone, from everywhere; a QUIT that fills the
        queue of another leaves that one to the next round. */
    method Reap()
      requires Valid()
      modifies this
      ensures Valid()
      ensures var dead := set d | d in old(wires) && old(wires[d]).quit;
              && conns == old(conns) - dead
              && forall ch, d :: Holds(View(), ch, d) <==> Holds(old(View()), ch, d) && d !in dead
    {
      hide Consistent, Reaped, Holds;
      var dead := set d | d in wires && wires[d].quit;
      var left := dead;
      while left != {}
        invariant left <= dead && left <= conns.Keys
        invariant Valid()
        invariant conns == old(conns) - (dead - left)
        invariant forall ch, d :: Holds(View(), ch, d) <==> Holds(old(View()), ch, d) && d !in dead - left
      {
        var cid :| cid in left;
        ReapOne(cid);
        left := left - {cid};
        assert dead - left == dead - (left + {cid}) + {cid};
      }
      assert dead - {} == dead;
    }

    /** `kill`: a client asked to leave, or a timer ran out. */
    method Kill(cid: nat)
      requires Valid()
      modifies `wires
      ensures Valid() && (cid in conns ==> wires[cid].quit)
    {
      if cid in wires {
        wires := wires[cid := wires[cid].(quit := true)];
      }
    }
  }

  lemma LeaveRest(n: Net, cid: nat, s: set<string>)
    ensures var m := Leave(n, cid, s);
            && m.nicks == n.nicks && m.nextCid == n.nextCid
            && m.conns == (if cid in n.conns then n.conns[cid := n.conns[cid].(channels := n.conns[cid].channels - s)] else n.conns)
  {
  }

  lemma HoldsIsThere(n: Net, ch: string, cid: nat)
    requires Holds(n, ch, cid)
    ensures ch in n.channels
  {
  }

  lemma UserSet(n: Net, cid: nat, user: string)
    requires Consistent(n) && cid in n.conns && !n.conns[cid].registered
    ensures Consistent(n.(conns := n.conns[cid := n.conns[cid].(user := Some(user))]))
  {
    hide Linked, Named, Channels, ValidNick;
    assert SoundConn(n.conns[cid]);
    ConnKeeps(n, cid, n.conns[cid].(user := Some(user)));
  }

  lemma CapSet(n: Net, cid: nat)
    requires Consistent(n) && cid in n.conns
    ensures forall on: bool :: Consistent(n.(conns := n.conns[cid := n.conns[cid].(capping := on)]))
  {
    hide Linked, Named, Channels, ValidNick;
    assert SoundConn(n.conns[cid]);
    ConnKeeps(n, cid, n.conns[cid].(capping := true));
    ConnKeeps(n, cid, n.conns[cid].(capping := false));
  }

  lemma ApplyNone(ch: Channel)
    ensures Apply(ch, []) == ch
  {
  }

  lemma ReapedIs(n: Net, cid: nat)
    requires cid in n.conns
    ensures Reaped(n, cid)
         == Net(n.conns - {cid}, if n.conns[cid].nick.Some? then n.nicks - {Lower(n.conns[cid].nick.value)} else n.nicks,
                Leave(n, cid, n.conns[cid].channels).channels, n.nextCid)
  {
    hide Leave, Lower;
    LeaveRest(n, cid, n.conns[cid].channels);
    assert Reaped(n, cid).conns == n.conns - {cid};
  }

  lemma ReapedHolds(n: Net, cid: nat)
    requires Consistent(n) && cid in n.conns
    ensures forall ch, d :: Holds(Reaped(n, cid), ch, d) <==> Holds(n, ch, d) && d != cid
  {
    hide Leave, Lower, Named, Channels, Conns;
    forall ch, d ensures Holds(Reaped(n, cid), ch, d) <==> Holds(n, ch, d) && d != cid {
      LeaveLinks(n, cid, n.conns[cid].channels, d, ch);
      assert Holds(Reaped(n, cid), ch, d) <==> Holds(Leave(n, cid, n.conns[cid].channels), ch, d);
      assert Lists(n, cid, ch) <==> Holds(n, ch, cid);
    }
  }
}
