/** IRC/src/server.rs, `cmd_mode`: what a channel's operator may ask for, and what the channel
    is told. */
module IrcModes {
  import opened Ascii
  import opened Common
  import opened IrcWords
  import opened Utf8
  import Decimals

  datatype Member = Member(op: bool, voice: bool)

  datatype Channel = Channel(
    name: string, topic: Option<string>, topicBy: string, key: Option<string>, limit: Option<nat>,
    noExternal: bool, topicLocked: bool, members: map<nat, Member>)

  /** A key or a limit is taken away by None. */
  datatype Change = Flag(c: char, on: bool) | Key(key: Option<string>) | Limit(limit: Option<nat>) | Priv(c: char, on: bool, cid: nat, nick: string)

  /** Where a name leads to a member of the channel. */
  type Who = map<string, nat>

  predicate Legal(nicks: Who, members: set<nat>, c: Change) {
    match c
    case Flag(l, _) => l == 't' || l == 'n'
    case Key(k) => k != Some("")
    case Limit(None) => true
    case Limit(Some(n)) => 0 < n <= USIZE_MAX
    case Priv(l, _, cid, nick) =>
      (l == 'o' || l == 'v') && Lower(nick) in nicks && nicks[Lower(nick)] == cid && cid in members
  }

  // --- asking ---------------------------------------------------------------------------

  datatype Asked = Asked(changes: seq<Change>, errors: seq<string>)

  function Good(c: Change): Asked {
    Asked([c], [])
  }

  function Bad(code: string): Asked {
    Asked([], [code])
  }

  function Both(a: Asked, b: Asked): Asked {
    Asked(a.changes + b.changes, a.errors + b.errors)
  }

  lemma BothInTurn(a: Asked, b: Asked, c: Asked)
    ensures Both(Both(a, b), c) == Both(a, Both(b, c))
    ensures Both(Asked([], []), a) == a && Both(a, Asked([], [])) == a
  {
  }

  predicate TakesArg(l: char, adding: bool) {
    (adding && (l == 'k' || l == 'l')) || l == 'o' || l == 'v'
  }

  /** One letter with the argument it takes, if any is left. */
  function AskOne(nicks: Who, members: set<nat>, l: char, adding: bool, arg: Option<string>): Asked {
    if l == 't' || l == 'n' then Good(Flag(l, adding))
    else if l == 'k' then
      if !adding then Good(Key(None))
      else if arg.Some? && arg.value != "" then Good(Key(arg))
      else Bad("461")
    else if l == 'l' then
      if !adding then Good(Limit(None))
      else if arg.Some? && Decimals.Parse(arg.value).Some? && Decimals.Parse(arg.value).value > 0
      then Good(Limit(Decimals.Parse(arg.value)))
      else Bad("461")
    else if l == 'o' || l == 'v' then
      if arg.None? then Bad("461")
      else if Lower(arg.value) in nicks && nicks[Lower(arg.value)] in members
      then Good(Priv(l, adding, nicks[Lower(arg.value)], arg.value))
      else Bad("441")
    else Bad("472")
  }

  /** The letters from left to right; plus and minus set the sign for those that follow. */
  function Ask(nicks: Who, members: set<nat>, letters: string, args: seq<string>, adding: bool): Asked {
    if letters == "" then Asked([], [])
    else if letters[0] == '+' then Ask(nicks, members, letters[1..], args, true)
    else if letters[0] == '-' then Ask(nicks, members, letters[1..], args, false)
    else
      var takes := TakesArg(letters[0], adding);
      var one := AskOne(nicks, members, letters[0], adding, if takes && args != [] then Some(args[0]) else None);
      var rest := Ask(nicks, members, letters[1..], if takes && args != [] then args[1..] else args, adding);
      Both(one, rest)
  }

  lemma {:induction false} AskedAreLegal(nicks: Who, members: set<nat>, letters: string, args: seq<string>, adding: bool)
    ensures forall c :: c in Ask(nicks, members, letters, args, adding).changes ==> Legal(nicks, members, c)
    decreases |letters|
  {
    if letters != "" {
      var l := letters[0];
      if l == '+' || l == '-' {
        AskedAreLegal(nicks, members, letters[1..], args, l == '+');
      } else {
        var takes := TakesArg(l, adding);
        OneIsLegal(nicks, members, l, adding, if takes && args != [] then Some(args[0]) else None);
        AskedAreLegal(nicks, members, letters[1..], if takes && args != [] then args[1..] else args, adding);
      }
    }
  }

  lemma OneIsLegal(nicks: Who, members: set<nat>, l: char, adding: bool, arg: Option<string>)
    ensures forall c :: c in AskOne(nicks, members, l, adding, arg).changes ==> Legal(nicks, members, c)
  {
  }

  // --- telling --------------------------------------------------------------------------

  function On(c: Change): bool {
    match c
    case Flag(_, on) => on
    case Key(k) => k.Some?
    case Limit(n) => n.Some?
    case Priv(_, on, _, _) => on
  }

  function Letter(c: Change): char {
    match c
    case Flag(l, _) => l
    case Key(_) => 'k'
    case Limit(_) => 'l'
    case Priv(l, _, _, _) => l
  }

  function ArgOf(c: Change): seq<string> {
    match c
    case Flag(_, _) => []
    case Key(Some(k)) => [k]
    case Key(None) => []
    case Limit(Some(n)) => [Decimals.Print(n)]
    case Limit(None) => []
    case Priv(_, _, _, nick) => [nick]
  }

  function Sign(c: Change, last: Option<bool>): string {
    if last == Some(On(c)) then "" else if On(c) then "+" else "-"
  }

  /** The letters told, with a sign only where it changes. */
  function Letters(cs: seq<Change>, last: Option<bool>): string {
    if cs == [] then "" else Sign(cs[0], last) + [Letter(cs[0])] + Letters(cs[1..], Some(On(cs[0])))
  }

  function Args(cs: seq<Change>): seq<string> {
    if cs == [] then [] else ArgOf(cs[0]) + Args(cs[1..])
  }

  /** A change asked for again by its letter and argument is the same change. */
  lemma OneReadsBack(nicks: Who, members: set<nat>, c: Change)
    requires Legal(nicks, members, c)
    ensures TakesArg(Letter(c), On(c)) <==> ArgOf(c) != []
    ensures ArgOf(c) == [] || |ArgOf(c)| == 1
    ensures AskOne(nicks, members, Letter(c), On(c), if ArgOf(c) == [] then None else Some(ArgOf(c)[0])) == Good(c)
    ensures Letter(c) != '+' && Letter(c) != '-'
  {
    if c.Limit? && c.limit.Some? {
      Decimals.PrintReadsBack(c.limit.value);
    }
  }

  lemma SignRead(nicks: Who, members: set<nat>, c: Change, last: Option<bool>, tail: string, args: seq<string>, adding: bool)
    requires last.Some? ==> last.value == adding
    ensures Ask(nicks, members, Sign(c, last) + tail, args, adding) == Ask(nicks, members, tail, args, On(c))
  {
    hide AskOne, On;
    var sign := Sign(c, last);
    if sign == "" {
      assert sign + tail == tail;
    } else {
      assert (sign + tail)[1..] == tail;
    }
  }

  /** MODE prints what it parses: the letters and arguments told, asked again, give the same
      changes with no error. */
  lemma {:induction false} ToldReadsBack(nicks: Who, members: set<nat>, cs: seq<Change>, last: Option<bool>, adding: bool)
    requires forall c :: c in cs ==> Legal(nicks, members, c)
    requires last.Some? ==> last.value == adding
    ensures Ask(nicks, members, Letters(cs, last), Args(cs), adding) == Asked(cs, [])
    decreases |cs|
  {
    hide AskOne, On, Sign, Legal, Letter, ArgOf;
    if cs != [] {
      var c, rest := cs[0], cs[1..];
      OneReadsBack(nicks, members, c);
      assert forall d :: d in rest ==> d in cs;
      ToldReadsBack(nicks, members, rest, Some(On(c)), On(c));
      var tail := [Letter(c)] + Letters(rest, Some(On(c)));
      assert tail[1..] == Letters(rest, Some(On(c)));
      var args := Args(cs);
      assert args == ArgOf(c) + Args(rest);
      assert if ArgOf(c) != [] then ArgOf(c) == [args[0]] && args[1..] == Args(rest) else args == Args(rest);
      LetterThenRest(nicks, members, c, tail, args, rest);
      assert Letters(cs, last) == Sign(c, last) + tail;
      SignRead(nicks, members, c, last, tail, args, adding);
      assert [c] + rest == cs;
    }
  }

  lemma LetterThenRest(nicks: Who, members: set<nat>, c: Change, tail: string, args: seq<string>, rest: seq<Change>)
    requires Legal(nicks, members, c) && tail != "" && tail[0] == Letter(c)
    requires ArgOf(c) != [] ==> args != [] && ArgOf(c) == [args[0]]
    requires Ask(nicks, members, tail[1..], if ArgOf(c) != [] then args[1..] else args, On(c)) == Asked(rest, [])
    ensures Ask(nicks, members, tail, args, On(c)) == Asked([c] + rest, [])
  {
    hide AskOne, Legal;
    OneReadsBack(nicks, members, c);
    var takes := TakesArg(tail[0], On(c));
    assert takes <==> ArgOf(c) != [];
  }

  // --- changing -------------------------------------------------------------------------

  function ApplyOne(ch: Channel, c: Change): Channel {
    match c
    case Flag(l, on) => if l == 't' then ch.(topicLocked := on) else ch.(noExternal := on)
    case Key(k) => ch.(key := k)
    case Limit(n) => ch.(limit := n)
    case Priv(l, on, cid, _) =>
      if cid !in ch.members then ch
      else
        var m := ch.members[cid];
        ch.(members := ch.members[cid := if l == 'o' then m.(op := on) else m.(voice := on)])
  }

  function Apply(ch: Channel, cs: seq<Change>): Channel
    decreases |cs|
  {
    if cs == [] then ch else Apply(ApplyOne(ch, cs[0]), cs[1..])
  }

  lemma ApplyOneKeeps(ch: Channel, c: Change, nicks: Who)
    requires Legal(nicks, ch.members.Keys, c)
    requires ch.key != Some("") && ch.limit != Some(0)
    ensures var d := ApplyOne(ch, c);
            && d.members.Keys == ch.members.Keys && d.name == ch.name && d.topic == ch.topic && d.topicBy == ch.topicBy
            && d.key != Some("") && d.limit != Some(0)
  {
    hide Lower;
    assert ApplyOne(ch, c).members.Keys == ch.members.Keys;
  }

  /** What modes do not touch. */
  lemma {:induction false} ApplyKeeps(ch: Channel, cs: seq<Change>, nicks: Who)
    requires forall c :: c in cs ==> Legal(nicks, ch.members.Keys, c)
    requires ch.key != Some("") && ch.limit != Some(0)
    ensures var d := Apply(ch, cs);
            && d.members.Keys == ch.members.Keys && d.name == ch.name && d.topic == ch.topic && d.topicBy == ch.topicBy
            && d.key != Some("") && d.limit != Some(0)
    decreases |cs|
  {
    if cs != [] {
      hide ApplyOne, Legal;
      var d := ApplyOne(ch, cs[0]);
      ApplyOneKeeps(ch, cs[0], nicks);
      assert cs[0] in cs && forall c :: c in cs[1..] ==> c in cs;
      ApplyKeeps(d, cs[1..], nicks);
    }
  }

  /** A client that does to its picture of the channel what it is told has the server's. */
  lemma BroadcastReplays(nicks: Who, ch: Channel, letters: string, args: seq<string>)
    ensures var cs := Ask(nicks, ch.members.Keys, letters, args, true).changes;
            var told := Ask(nicks, ch.members.Keys, Letters(cs, None), Args(cs), true);
            told.errors == [] && Apply(ch, told.changes) == Apply(ch, cs)
  {
    AskedAreLegal(nicks, ch.members.Keys, letters, args, true);
    ToldReadsBack(nicks, ch.members.Keys, Ask(nicks, ch.members.Keys, letters, args, true).changes, None, true);
  }

  /** `mode_string` for a member: what a client is told the modes are. */
  function ModeString(ch: Channel): (string, seq<string>) {
    ("+" + ((if ch.noExternal then "n" else "") + ((if ch.topicLocked then "t" else "")
     + ((if ch.key.Some? then "k" else "") + (if ch.limit.Some? then "l" else "")))),
     (if ch.key.Some? then [ch.key.value] else []) + (if ch.limit.Some? then [Decimals.Print(ch.limit.value)] else []))
  }

  function Current(ch: Channel): seq<Change> {
    (if ch.noExternal then [Flag('n', true)] else []) + ((if ch.topicLocked then [Flag('t', true)] else [])
    + ((if ch.key.Some? then [Key(ch.key)] else []) + (if ch.limit.Some? then [Limit(ch.limit)] else [])))
  }

  /** Asked of a channel without modes, the mode string makes it the one it was taken from. */
  lemma ModeStringReadsBack(nicks: Who, ch: Channel)
    requires ch.key != Some("") && (ch.limit.Some? ==> 0 < ch.limit.value <= USIZE_MAX)
    ensures var (letters, args) := ModeString(ch);
            var asked := Ask(nicks, ch.members.Keys, letters, args, true);
            asked.errors == [] && Apply(ch.(noExternal := false, topicLocked := false, key := None, limit := None), asked.changes) == ch
  {
    var cs := Current(ch);
    CurrentIsLegal(nicks, ch);
    CurrentTold(ch);
    hide Current, Legal, ModeString;
    ToldReadsBack(nicks, ch.members.Keys, cs, Some(true), true);
    var (letters, args) := ModeString(ch);
    hide AskOne;
    assert letters == "+" + Letters(cs, Some(true));
    assert letters[0] == '+' && letters[1..] == Letters(cs, Some(true));
    CurrentApplied(ch);
  }

  lemma CurrentIsLegal(nicks: Who, ch: Channel)
    requires ch.key != Some("") && (ch.limit.Some? ==> 0 < ch.limit.value <= USIZE_MAX)
    ensures forall c :: c in Current(ch) ==> Legal(nicks, ch.members.Keys, c)
  {
  }

  lemma CurrentTold(ch: Channel)
    ensures ModeString(ch) == ("+" + Letters(Current(ch), Some(true)), Args(Current(ch)))
  {
    var a := if ch.noExternal then [Flag('n', true)] else [];
    var b := if ch.topicLocked then [Flag('t', true)] else [];
    var c := if ch.key.Some? then [Key(ch.key)] else [];
    var d := if ch.limit.Some? then [Limit(ch.limit)] else [];
    assert Current(ch) == a + (b + (c + d));
    ShortTold(a, b + (c + d));
    ShortTold(b, c + d);
    ShortTold(c, d);
    ShortTold(d, []);
    assert d + [] == d;
    hide Letters, Args;
    NothingTold();
    var on := Some(true);
    assert Letters(d, on) == (if ch.limit.Some? then "l" else "");
    assert Letters(c + d, on) == (if ch.key.Some? then "k" else "") + Letters(d, on);
    assert Letters(b + (c + d), on) == (if ch.topicLocked then "t" else "") + Letters(c + d, on);
    assert Letters(Current(ch), on) == (if ch.noExternal then "n" else "") + Letters(b + (c + d), on);
    assert Args(d) == if ch.limit.Some? then [Decimals.Print(ch.limit.value)] else [];
    assert Args(c + d) == (if ch.key.Some? then [ch.key.value] else []) + Args(d);
    assert Args(b + (c + d)) == Args(c + d);
    assert Args(Current(ch)) == Args(c + d);
  }

  lemma NothingTold()
    ensures Letters([], Some(true)) == "" && Args([]) == []
  {
  }

  lemma ShortTold(a: seq<Change>, b: seq<Change>)
    requires |a| <= 1 && forall c :: c in a ==> On(c)
    ensures Letters(a + b, Some(true)) == (if a == [] then "" else [Letter(a[0])]) + Letters(b, Some(true))
    ensures Args(a + b) == (if a == [] then [] else ArgOf(a[0])) + Args(b)
  {
    hide ArgOf, Letter;
    if a == [] {
      assert a + b == b;
    } else {
      assert (a + b)[0] == a[0] && (a + b)[1..] == b;
    }
  }

  lemma CurrentApplied(ch: Channel)
    ensures Apply(ch.(noExternal := false, topicLocked := false, key := None, limit := None), Current(ch)) == ch
  {
    var a := if ch.noExternal then [Flag('n', true)] else [];
    var b := if ch.topicLocked then [Flag('t', true)] else [];
    var c := if ch.key.Some? then [Key(ch.key)] else [];
    var d := if ch.limit.Some? then [Limit(ch.limit)] else [];
    var none := ch.(noExternal := false, topicLocked := false, key := None, limit := None);
    assert Current(ch) == a + (b + (c + d));
    ApplyShort(none, a, b + (c + d));
    ApplyShort(none.(noExternal := ch.noExternal), b, c + d);
    ApplyShort(none.(noExternal := ch.noExternal, topicLocked := ch.topicLocked), c, d);
    assert d + [] == d;
    ApplyShort(ch.(limit := None), d, []);
  }

  lemma ApplyShort(ch: Channel, a: seq<Change>, b: seq<Change>)
    requires |a| <= 1
    ensures Apply(ch, a + b) == Apply(if a == [] then ch else ApplyOne(ch, a[0]), b)
  {
    if a == [] {
      assert a + b == b;
    } else {
      assert (a + b)[1..] == b;
    }
  }

  // --- the loops ------------------------------------------------------------------------

  /** Phase one of `cmd_mode`. */
  method Validate(nicks: Who, members: set<nat>, modestr: string, params: seq<string>) returns (asked: Asked)
    ensures asked == Ask(nicks, members, modestr, params, true)
  {
    hide *;
    AskEnds(nicks, members, modestr, params, true);
    asked := Asked([], []);
    var adding, argi: nat := true, 0;
    ghost var whole := Ask(nicks, members, modestr, params, true);
    BothInTurn(whole, asked, asked);
    for i := 0 to |modestr|
      invariant Both(asked, Ask(nicks, members, modestr[i..], if argi <= |params| then params[argi..] else [], adding)) == whole
    {
      var l := modestr[i];
      AskNext(nicks, members, modestr, i, params, argi, adding);
      if l == '+' {
        adding := true;
      } else if l == '-' {
        adding := false;
      } else {
        var arg := None;
        if TakesArg(l, adding) {
          arg := if argi < |params| then Some(params[argi]) else None;
          argi := argi + 1;
        }
        var one := AskOne(nicks, members, l, adding, arg);
        BothInTurn(asked, one, Ask(nicks, members, modestr[i + 1..], if argi <= |params| then params[argi..] else [], adding));
        asked := Both(asked, one);
      }
    }
    AskEnds(nicks, members, modestr, if argi <= |params| then params[argi..] else [], adding);
    BothInTurn(asked, asked, asked);
  }

  lemma AskEnds(nicks: Who, members: set<nat>, letters: string, args: seq<string>, adding: bool)
    ensures Ask(nicks, members, letters[|letters|..], args, adding) == Asked([], [])
    ensures letters[0..] == letters && args[0..] == args
  {
  }

  lemma AskNext(nicks: Who, members: set<nat>, letters: string, i: nat, args: seq<string>, argi: nat, adding: bool)
    requires i < |letters|
    ensures var left := if argi <= |args| then args[argi..] else [];
            var after := if argi + 1 <= |args| then args[argi + 1..] else [];
            var l := letters[i];
            Ask(nicks, members, letters[i..], left, adding)
            == if l == '+' then Ask(nicks, members, letters[i + 1..], left, true)
               else if l == '-' then Ask(nicks, members, letters[i + 1..], left, false)
               else
                 var takes := TakesArg(l, adding);
                 var one := AskOne(nicks, members, l, adding, if takes && argi < |args| then Some(args[argi]) else None);
                 var rest := Ask(nicks, members, letters[i + 1..], if takes then after else left, adding);
                 Both(one, rest)
  {
    hide AskOne, TakesArg;
    assert letters[i..][0] == letters[i] && letters[i..][1..] == letters[i + 1..];
    var left := if argi <= |args| then args[argi..] else [];
    if argi < |args| {
      assert left[0] == args[argi] && left[1..] == args[argi + 1..];
    }
  }

  /** Phase two: the channel changed, and the letters and arguments to tell. */
  method ApplyAll(ch: Channel, changes: seq<Change>) returns (ch': Channel, letters: string, args: seq<string>)
    ensures ch' == Apply(ch, changes)
    ensures letters == Letters(changes, None) && args == Args(changes)
  {
    hide *;
    ToldEnds(ch, changes, 0, None);
    ch', letters, args := ch, "", [];
    var last: Option<bool> := None;
    for i := 0 to |changes|
      invariant Apply(ch', changes[i..]) == Apply(ch, changes)
      invariant letters + Letters(changes[i..], last) == Letters(changes, None)
      invariant args + Args(changes[i..]) == Args(changes)
    {
      var c := changes[i];
      ToldNext(ch', changes, i, last);
      ch' := ApplyOne(ch', c);
      letters := letters + Sign(c, last) + [Letter(c)];
      last := Some(On(c));
      args := args + ArgOf(c);
    }
    ToldEnds(ch', changes, |changes|, last);
    assert letters + "" == letters && args + [] == args;
  }

  lemma ToldEnds(ch: Channel, cs: seq<Change>, i: nat, last: Option<bool>)
    requires i <= |cs|
    ensures cs[0..] == cs
    ensures i == |cs| ==> Letters(cs[i..], last) == "" && Args(cs[i..]) == [] && Apply(ch, cs[i..]) == ch
  {
  }

  lemma ToldNext(ch: Channel, cs: seq<Change>, i: nat, last: Option<bool>)
    requires i < |cs|
    ensures Letters(cs[i..], last) == Sign(cs[i], last) + [Letter(cs[i])] + Letters(cs[i + 1..], Some(On(cs[i])))
    ensures Args(cs[i..]) == ArgOf(cs[i]) + Args(cs[i + 1..])
    ensures Apply(ch, cs[i..]) == Apply(ApplyOne(ch, cs[i]), cs[i + 1..])
  {
    hide ApplyOne, ArgOf, Letter, On, Sign;
    assert cs[i..][0] == cs[i] && cs[i..][1..] == cs[i + 1..];
  }

  /** The line a channel is told its changes in. */
  function TellLine(prefix: string, name: string, cs: seq<Change>): string {
    ":" + prefix + " " + Spaced(Told(name, cs))
  }

  function Told(name: string, cs: seq<Change>): seq<string> {
    ["MODE", name, Letters(cs, None)] + Args(cs)
  }

  /** The line is told as text, cut to size, and there a key can break it: it may hold a space, or
      be too long. So can the channel's name, which may hold a tab. Told, the line reads back exactly
      when the name, the letters and the arguments are words that begin with no colon, and it
      fits. */
  lemma ToldAsTextIff(prefix: string, name: string, cs: seq<Change>)
    requires ' ' !in prefix
    ensures var line := TellLine(prefix, name, cs);
            Parse(Clip(line, LINE_MAX)) == Some(Told(name, cs)) <==> Plain([name, Letters(cs, None)] + Args(cs)) && ByteLen(line) <= LINE_MAX
  {
    hide Parse, Clip, ByteLen, Plain, Args, Letters, Spaced;
    LineReadsBackIff(prefix, Told(name, cs));
    ToldIsPrintable(name, Letters(cs, None), Args(cs));
  }

  lemma ToldIsPrintable(name: string, letters: string, args: seq<string>)
    ensures Printable(["MODE", name, letters] + args) <==> Plain([name, letters] + args)
  {
    hide Plain;
    var all := ["MODE", name, letters] + args;
    assert all[1..] == [name, letters] + args;
    assert all[0] == "MODE" && IsWord(all[0]);
  }

  lemma SpacedKeyIsLost()
    ensures var cs := Ask(map[], {}, "+k", ["a b"], true).changes;
            cs == [Key(Some("a b"))] && Params(Spaced([Letters(cs, None)] + Args(cs))) == ["+k", "a", "b"]
  {
    hide Params, Words, Printable;
    assert "+k"[1..] == "k" && "k"[1..] == "";
    assert Ask(map[], {}, "", [], true) == Asked([], []);
    assert ["a b"][1..] == [];
    assert Ask(map[], {}, "k", ["a b"], true).changes == [Key(Some("a b"))];
    var cs := [Key(Some("a b"))];
    assert Letters(cs, None) == "+k" && Args(cs) == ["a b"];
    assert [Letters(cs, None)] + Args(cs) == ["+k", "a b"];
    assert ["+k", "a b"][1..] == ["a b"];
    assert Spaced(["+k", "a b"]) == "+k a b";
    assert Spaced(["+k", "a", "b"]) == "+k a b" by {
      assert ["+k", "a", "b"][1..] == ["a", "b"] && ["a", "b"][1..] == ["b"];
      assert Spaced(["a", "b"]) == "a b";
    }
    ShortWords();
    SpacedReadsBackIff(["+k", "a", "b"]);
  }

  lemma ShortWords()
    ensures Printable(["+k", "a", "b"])
  {
    assert ["+k", "a", "b"][1..] == ["a", "b"] && ["a", "b"][1..] == ["b"] && ["b"][1..] == [];
    assert Plain([]) && Plain(["b"]);
    assert Plain(["a", "b"]);
  }
}
