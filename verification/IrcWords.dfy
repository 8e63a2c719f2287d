/** IRC/src/message.rs: the words of a line. */
module IrcWords {
  import opened Common
  import opened Utf8

  /** A line is cut to this many bytes. */
  const LINE_MAX := 510

  predicate IsSpace(c: char) {
    c == ' ' || c == '\t' || c == '\n' || c == '\r' || c == '\U{00000C}'
  }

  predicate IsWord(w: string) {
    w != "" && forall c :: c in w ==> !IsSpace(c)
  }

  /** Where the first word of a text ends. */
  function WordEnd(s: string): (n: nat)
    ensures n <= |s| && (n < |s| ==> IsSpace(s[n])) && forall i :: 0 <= i < n ==> !IsSpace(s[i])
  {
    if s == "" || IsSpace(s[0]) then 0
    else
      var n := WordEnd(s[1..]);
      assert forall i :: 0 < i < n + 1 ==> s[i] == s[1..][i - 1];
      1 + n
  }

  /** `split_ascii_whitespace`. */
  function Words(s: string): seq<string>
    decreases |s|
  {
    if s == "" then []
    else if IsSpace(s[0]) then Words(s[1..])
    else [s[..WordEnd(s)]] + Words(s[WordEnd(s)..])
  }

  /** `find(" :")`. */
  function ColonAt(s: string): (r: Option<nat>)
    ensures r.Some? ==> r.value + 2 <= |s| && s[r.value] == ' ' && s[r.value + 1] == ':'
  {
    if |s| < 2 then None
    else if s[0] == ' ' && s[1] == ':' then Some(0)
    else
      match ColonAt(s[1..])
      case Some(i) => Some(i + 1)
      case None => None
  }

  /** The parameters in the rest of a line: words, and after " :" one that runs to the end. */
  function Params(s: string): seq<string> {
    match ColonAt(s)
    case None => Words(s)
    case Some(i) => Words(s[..i]) + [s[i + 2..]]
  }

  /** `trim_start`. */
  function Trimmed(s: string): string {
    if s != "" && IsSpace(s[0]) then Trimmed(s[1..]) else s
  }

  /** `parse`: the command and its parameters; a prefix is passed over. */
  function Parse(line: string): Option<seq<string>> {
    var all := Trimmed(line);
    var rest := if all != "" && all[0] == ':' then Trimmed(FromSpace(all)) else all;
    if Words(Head(rest)) == [] then None else Some(Params(rest))
  }

  /** What stands before the parameter that runs to the end. */
  function Head(s: string): string {
    match ColonAt(s)
    case None => s
    case Some(i) => s[..i]
  }

  /** From the first space on. */
  function FromSpace(s: string): string {
    if s == "" || s[0] == ' ' then s else FromSpace(s[1..])
  }

  function Spaced(ws: seq<string>): string {
    if ws == [] then "" else if |ws| == 1 then ws[0] else ws[0] + " " + Spaced(ws[1..])
  }

  function Size(ws: seq<string>): nat {
    if ws == [] then 0 else |ws[0]| + Size(ws[1..])
  }

  // --- which lists of words survive being printed ---------------------------------------

  lemma {:induction false} WordsAreWords(s: string)
    ensures forall w :: w in Words(s) ==> IsWord(w)
    decreases |s|
  {
    if s != "" {
      if IsSpace(s[0]) {
        WordsAreWords(s[1..]);
      } else {
        WordsAreWords(s[WordEnd(s)..]);
      }
    }
  }

  /** Between two words lies at least one character. */
  lemma {:induction false} WordsFit(s: string)
    ensures Words(s) != [] ==> Size(Words(s)) + |Words(s)| - 1 <= |s|
    ensures s != "" && IsSpace(s[0]) ==> Size(Words(s)) + |Words(s)| <= |s|
    decreases |s|
  {
    if s != "" {
      if IsSpace(s[0]) {
        WordsFit(s[1..]);
      } else {
        WordsFit(s[WordEnd(s)..]);
      }
    }
  }

  lemma {:induction false} SpacedSize(ws: seq<string>)
    requires ws != []
    ensures |Spaced(ws)| == Size(ws) + |ws| - 1
  {
    if |ws| > 1 {
      SpacedSize(ws[1..]);
    }
  }

  lemma {:induction false} SizeConcat(a: seq<string>, b: seq<string>)
    ensures Size(a + b) == Size(a) + Size(b)
  {
    if a == [] {
      assert a + b == b;
    } else {
      assert (a + b)[1..] == a[1..] + b;
      SizeConcat(a[1..], b);
    }
  }

  lemma FirstWord(w: string, rest: string)
    requires IsWord(w) && (rest == "" || IsSpace(rest[0]))
    ensures Words(w + rest) == [w] + Words(rest)
  {
    var s := w + rest;
    assert forall i :: 0 <= i < |w| ==> s[i] in w;
    assert rest != "" ==> s[|w|] == rest[0];
    assert WordEnd(s) == |w|;
    assert s[..|w|] == w && s[|w|..] == rest;
  }

  lemma {:induction false} WordsOfSpaced(ws: seq<string>)
    requires forall w :: w in ws ==> IsWord(w)
    ensures Words(Spaced(ws)) == ws
  {
    if |ws| == 1 {
      FirstWord(ws[0], "");
      assert ws[0] + "" == ws[0];
    } else if |ws| > 1 {
      FirstWord(ws[0], " " + Spaced(ws[1..]));
      assert ws[0] + (" " + Spaced(ws[1..])) == Spaced(ws);
      WordsOfSpaced(ws[1..]);
      assert (" " + Spaced(ws[1..]))[1..] == Spaced(ws[1..]);
    }
  }

  predicate AllWords(ws: seq<string>) {
    forall w :: w in ws ==> IsWord(w)
  }

  /** Words, none of which begins with a colon. */
  predicate Plain(ws: seq<string>) {
    ws == [] || (IsWord(ws[0]) && ws[0][0] != ':' && Plain(ws[1..]))
  }

  predicate Printable(ws: seq<string>) {
    ws == [] || (IsWord(ws[0]) && Plain(ws[1..]))
  }

  lemma {:induction false} NoColonInWord(w: string)
    requires forall c :: c in w ==> !IsSpace(c)
    ensures ColonAt(w).None?
  {
    if w != "" {
      assert w[0] in w;
      NoColonInWord(w[1..]);
    }
  }

  lemma {:induction false} NoColonAfterWord(w: string, t: string)
    requires forall c :: c in w ==> !IsSpace(c)
    requires t != ""
    ensures ColonAt(w + " " + t).None? <==> t[0] != ':' && ColonAt(t).None?
  {
    var s := w + " " + t;
    if w == "" {
      assert s == " " + t;
      assert s[1..] == t;
    } else {
      assert s[0] == w[0] && w[0] in w;
      assert s[1..] == w[1..] + " " + t;
      NoColonAfterWord(w[1..], t);
    }
  }

  /** " :" stands in spaced words exactly where a word but the first begins with a colon. */
  lemma {:induction false} NoColon(ws: seq<string>)
    requires AllWords(ws)
    ensures ColonAt(Spaced(ws)).None? <==> Printable(ws)
  {
    if ws != [] {
      assert ws[0] in ws;
      if |ws| == 1 {
        NoColonInWord(ws[0]);
      } else {
        assert AllWords(ws[1..]) by {
          assert forall w :: w in ws[1..] ==> w in ws;
        }
        assert IsWord(ws[1..][0]);
        NoColon(ws[1..]);
        SpacedStart(ws[1..]);
        NoColonAfterWord(ws[0], Spaced(ws[1..]));
      }
    }
  }

  lemma SpacedStart(ws: seq<string>)
    requires ws != [] && IsWord(ws[0])
    ensures Spaced(ws) != "" && Spaced(ws)[0] == ws[0][0]
  {
  }

  lemma {:induction false} PlainAreWords(ws: seq<string>)
    requires Plain(ws)
    ensures AllWords(ws)
  {
    if ws != [] {
      PlainAreWords(ws[1..]);
    }
  }

  /** A list of parameters printed with spaces reads back as itself exactly when every one is
      a word and none but the first begins with a colon. */
  lemma SpacedReadsBackIff(ws: seq<string>)
    requires ws != []
    ensures Params(Spaced(ws)) == ws <==> Printable(ws)
  {
    var s := Spaced(ws);
    if Printable(ws) {
      PlainAreWords(ws[1..]);
      assert AllWords(ws);
      NoColon(ws);
      WordsOfSpaced(ws);
    }
    if Params(s) == ws {
      if ColonAt(s).Some? {
        var i := ColonAt(s).value;
        WordsFit(s[..i]);
        SpacedSize(ws);
        SizeConcat(Words(s[..i]), [s[i + 2..]]);
        assert false;
      }
      hide Plain, Spaced;
      WordsAreWords(s);
      NoColon(ws);
    }
  }

  /** What reads back as a list of parameters is no shorter than the list printed. */
  lemma ParamsFit(s: string)
    ensures Params(s) != [] ==> Size(Params(s)) + |Params(s)| - 1 <= |s|
  {
    match ColonAt(s)
    case None => WordsFit(s);
    case Some(i) =>
      WordsFit(s[..i]);
      SizeConcat(Words(s[..i]), [s[i + 2..]]);
  }

  lemma {:induction false} SkipsPrefix(p: string, t: string)
    requires ' ' !in p
    ensures FromSpace(p + t) == FromSpace(t)
  {
    if p == "" {
      assert p + t == t;
    } else {
      assert (p + t)[1..] == p[1..] + t;
      SkipsPrefix(p[1..], t);
    }
  }

  /** A line of a prefix and words, of which the first does not begin with a colon: cut to size it
      reads back exactly when it fits and the words are printable. */
  lemma LineReadsBackIff(prefix: string, ws: seq<string>)
    requires ' ' !in prefix && |ws| > 1 && IsWord(ws[0]) && ws[0][0] != ':'
    ensures var line := ":" + prefix + " " + Spaced(ws);
            Parse(Clip(line, LINE_MAX)) == Some(ws) <==> Printable(ws) && ByteLen(line) <= LINE_MAX
  {
    hide Words, Params, Clip, ByteLen, Printable, Head;
    var head, text := ":" + prefix, Spaced(ws);
    var line := head + " " + text;
    ClipIs(line, LINE_MAX);
    var got := Clip(line, LINE_MAX);
    SpacedStart(ws);
    if |got| <= |head| {
      assert got == head[..|got|];
      SkipsPrefix(got, "");
      assert got + "" == got;
      HeadIsNoLine(got);
    } else {
      var t := text[..|got| - |head| - 1];
      assert got == head + (" " + t);
      ReadsAfterPrefix(head, t);
      ParamsFit(t);
      SpacedSize(ws);
      SpacedReadsBackIff(ws);
      if |got| == |line| {
        assert t == text;
        FirstIsThere(ws);
      }
    }
  }

  lemma HeadIsNoLine(got: string)
    requires FromSpace(got) == "" && (got == "" || got[0] == ':')
    ensures Parse(got) == None
  {
  }

  lemma ReadsAfterPrefix(head: string, t: string)
    requires head != "" && head[0] == ':' && ' ' !in head && (t != "" ==> !IsSpace(t[0]))
    ensures Parse(head + (" " + t)) == if Words(Head(t)) == [] then None else Some(Params(t))
  {
    hide Words, Params, Head;
    var all := head + (" " + t);
    SkipsPrefix(head, " " + t);
    assert Trimmed(all) == all;
    assert FromSpace(" " + t) == " " + t;
    assert (" " + t)[1..] == t;
    assert Trimmed(" " + t) == Trimmed(t) == t;
  }

  /** Whatever follows, the first word of a printed list is read. */
  lemma FirstIsThere(ws: seq<string>)
    requires |ws| > 1 && IsWord(ws[0])
    ensures Words(Head(Spaced(ws))) != []
  {
    var t := Spaced(ws);
    assert t == ws[0] + (" " + Spaced(ws[1..]));
    assert t[0] == ws[0][0] && ws[0][0] in ws[0];
    hide Spaced;
    if ColonAt(t).Some? {
      var h := t[..ColonAt(t).value];
      if ColonAt(t).value > 0 {
        assert h[0] == t[0] && WordEnd(h) <= |h|;
      }
    }
  }
}
