/** A client's side of backchannel/src/httpd.rs, `try_parse`: what a request written out, its path and
    its length encoded, is read as. The writer is the definition the parser is held against. */
module HttpWrite {
  import opened Common
  import opened ByteText
  import opened ChunkedCoding
  import opened HttpParse

  const CRLF: Bytes := [CR, LF]
  const SLASH: byte := 47

  /** A number in decimal. */
  function Digits(n: nat): (s: Bytes)
    ensures s != []
    ensures forall b :: b in s ==> 48 <= b <= 57
  {
    if n < 10 then [(48 + n) as byte] else Digits(n / 10) + [(48 + n % 10) as byte]
  }

  function HexOf(d: nat): byte
    requires d < 16
  {
    if d < 10 then (48 + d) as byte else (55 + d) as byte
  }

  /** Letters, digits and slashes stand for themselves, a space is written as a plus sign, and any
      other byte as a percent sign and two hexadecimal digits. */
  function Escape(b: byte): Bytes {
    if 65 <= b <= 90 || 97 <= b <= 122 || 48 <= b <= 57 || b == SLASH then [b]
    else if b == 32 then [43]
    else [37, HexOf(b as nat / 16), HexOf(b as nat % 16)]
  }

  function Escaped(path: Bytes): Bytes {
    if path == [] then [] else Escape(path[0]) + Escaped(path[1..])
  }

  function Target(path: Bytes, query: Bytes): Bytes {
    Escaped(path) + (if query == [] then [] else [63] + query)
  }

  /** A line of the head: one the parser only passes on, the length of the body, or a coding. */
  datatype Line = Passed(name: Bytes, value: Bytes) | Length(n: nat) | Coding(value: Bytes)

  const LENGTH: Bytes := [67, 111, 110, 116, 101, 110, 116, 45, 76, 101, 110, 103, 116, 104]
  const ENCODING: Bytes := [84, 114, 97, 110, 115, 102, 101, 114, 45, 69, 110, 99, 111, 100, 105, 110, 103]

  function NameOf(l: Line): Bytes {
    match l
    case Passed(name, _) => name
    case Length(_) => LENGTH
    case Coding(_) => ENCODING
  }

  function ValueOf(l: Line): Bytes {
    match l
    case Passed(_, value) => value
    case Length(n) => Digits(n)
    case Coding(value) => value
  }

  /** A name, a colon, a space, a value. */
  function Header(l: Line): Bytes {
    NameOf(l) + [58] + ([32] + ValueOf(l))
  }

  function Headers(lines: seq<Line>): (r: seq<Bytes>)
    ensures |r| == |lines|
  {
    seq(|lines|, i requires 0 <= i < |lines| => Header(lines[i]))
  }

  /** A text of lines, each but the first behind a line break. */
  function Lines(first: Bytes, more: seq<Bytes>): Bytes
    decreases |more|
  {
    if more == [] then first else first + CRLF + Lines(more[0], more[1..])
  }

  function RequestLine(verb: Bytes, path: Bytes, query: Bytes, version: Bytes): Bytes {
    verb + [32] + (Target(path, query) + [32] + version)
  }

  /** HTTP/1, and a point. */
  predicate SpeaksOne(version: Bytes) {
    |version| >= 7 && version[..7] == [72, 84, 84, 80, 47, 49, 46]
  }

  function HeadOf(verb: Bytes, path: Bytes, query: Bytes, version: Bytes, lines: seq<Line>): Bytes {
    Lines(RequestLine(verb, path, query, version), Headers(lines))
  }

  /** The request: its head, a blank line, its body. */
  function Written(verb: Bytes, path: Bytes, query: Bytes, version: Bytes, lines: seq<Line>, body: Bytes): Bytes {
    HeadOf(verb, path, query, version, lines) + CRLF + CRLF + body
  }

  // --- what can be written ----------------------------------------------------------------

  /** No line break within. */
  predicate OneLine(s: Bytes) {
    Crlf(s).None?
  }

  /** No white space at its ends. */
  predicate Tight(s: Bytes) {
    s != [] ==> !IsSpace(s[0]) && !IsSpace(s[|s| - 1])
  }

  function Lowered(s: Bytes): (r: Bytes)
    ensures |r| == |s|
  {
    seq(|s|, i requires 0 <= i < |s| => if 65 <= s[i] <= 90 then s[i] + 32 else s[i])
  }

  predicate Writable(l: Line) {
    && OneLine(NameOf(l)) && OneLine(ValueOf(l)) && Tight(NameOf(l)) && Tight(ValueOf(l)) && 58 !in NameOf(l)
    && (l.Passed? ==> Lowered(l.name) != Lowered(LENGTH) && Lowered(l.name) != Lowered(ENCODING))
  }

  predicate Sendable(verb: Bytes, query: Bytes, version: Bytes, lines: seq<Line>) {
    OneLine(verb) && OneLine(query) && OneLine(version) && 32 !in verb && 32 !in query && 32 !in version
    && forall l :: l in lines ==> Writable(l)
  }

  /** What is passed on: names in lower case. */
  function Given(lines: seq<Line>): (r: seq<(Bytes, Bytes)>)
    ensures |r| == |lines|
  {
    seq(|lines|, i requires 0 <= i < |lines| => (Lowered(NameOf(lines[i])), ValueOf(lines[i])))
  }

  /** The last length there is, or `n`. */
  function LengthTold(lines: seq<Line>, n: nat): nat {
    if lines == [] then n else LengthTold(lines[1..], if lines[0].Length? then lines[0].n else n)
  }

  predicate AnyCoding(lines: seq<Line>) {
    exists i :: 0 <= i < |lines| && lines[i].Coding?
  }

  predicate AnyTooLong(lines: seq<Line>) {
    exists i :: 0 <= i < |lines| && lines[i].Length? && lines[i].n > USIZE_MAX
  }

  // --- numbers and paths ------------------------------------------------------------------

  lemma {:induction false} DigitsReadBack(n: nat)
    ensures Decimal(Digits(n)) == Some(n)
  {
    var s := Digits(n);
    if n < 10 {
      assert s[..|s| - 1] == [];
    } else {
      DigitsReadBack(n / 10);
      assert s[..|s| - 1] == Digits(n / 10) && s[|s| - 1] == (48 + n % 10) as byte;
    }
  }

  lemma LengthReadsBack(n: nat)
    ensures UsizeOf(Digits(n)) == if n <= USIZE_MAX then Some(n) else None
  {
    DigitsReadBack(n);
    assert Digits(n)[0] in Digits(n);
  }

  lemma HexReads(d: nat)
    requires d < 16
    ensures DigitOf(HexOf(d)) == Some(d)
  {
  }

  lemma {:induction false} EscapedReadsBack(path: Bytes)
    ensures UrlDecode(Escaped(path)) == Some(path)
    ensures forall b :: b in Escaped(path) ==> b != 32 && b != 63 && b != CR && b != LF
  {
    hide Escape, UrlDecode;
    if path != [] {
      EscapedReadsBack(path[1..]);
      OneReadsBack(path[0], Escaped(path[1..]), path[1..]);
      assert [path[0]] + path[1..] == path;
    } else {
      NothingReadsBack();
    }
  }

  lemma NothingReadsBack()
    ensures UrlDecode([]) == Some([])
  {
  }

  lemma OneReadsBack(b: byte, rest: Bytes, path: Bytes)
    requires UrlDecode(rest) == Some(path)
    ensures UrlDecode(Escape(b) + rest) == Some([b] + path)
    ensures forall x :: x in Escape(b) ==> x != 32 && x != 63 && x != CR && x != LF
  {
    hide UrlDecode;
    if |Escape(b)| == 1 {
      ItselfReadsBack(Escape(b)[0], rest, path);
    } else {
      HexReads(b as nat / 16);
      HexReads(b as nat % 16);
      PairReadsBack(b, rest, path);
    }
  }

  lemma ItselfReadsBack(c: byte, rest: Bytes, path: Bytes)
    requires UrlDecode(rest) == Some(path) && c != PERCENT
    ensures UrlDecode([c] + rest) == Some([if c == PLUS then 32 else c] + path)
  {
    assert ([c] + rest)[1..] == rest;
  }

  lemma PairReadsBack(b: byte, rest: Bytes, path: Bytes)
    requires UrlDecode(rest) == Some(path)
    ensures UrlDecode([37, HexOf(b as nat / 16), HexOf(b as nat % 16)] + rest) == Some([b] + path)
  {
    HexReads(b as nat / 16);
    HexReads(b as nat % 16);
    hide HexOf, DigitOf;
    var s := [37, HexOf(b as nat / 16), HexOf(b as nat % 16)] + rest;
    assert s[0] == 37 && s[1] == HexOf(b as nat / 16) && s[2] == HexOf(b as nat % 16) && s[3..] == rest;
    assert b as nat == b as nat / 16 * 16 + b as nat % 16;
  }

  // --- lines ------------------------------------------------------------------------------

  lemma {:induction false} LineJoin(a: Bytes, b: Bytes)
    requires OneLine(a) && OneLine(b) && (a != [] && b != [] ==> a[|a| - 1] != CR || b[0] != LF)
    ensures OneLine(a + b)
  {
    if |a| >= 2 {
      assert (a + b)[1..] == a[1..] + b;
      LineJoin(a[1..], b);
    } else if |a| == 1 {
      assert (a + b)[1..] == b;
    } else {
      assert a + b == b;
    }
  }

  lemma {:induction false} NoBreak(s: Bytes)
    requires CR !in s
    ensures OneLine(s)
  {
    if |s| >= 2 {
      assert s[0] in s;
      NoBreak(s[1..]);
    }
  }

  lemma {:induction false} BreakAfter(a: Bytes, rest: Bytes)
    requires OneLine(a)
    ensures Crlf(a + CRLF + rest) == Some(|a|)
  {
    var s := a + CRLF + rest;
    if a == [] {
      assert s == CRLF + rest;
    } else {
      assert s[1..] == a[1..] + CRLF + rest;
      if |a| >= 2 {
        assert s[0] == a[0] && s[1] == a[1];
      }
      OneLineRest(a);
      BreakAfter(a[1..], rest);
    }
  }

  lemma OneLineRest(a: Bytes)
    requires OneLine(a) && a != []
    ensures OneLine(a[1..])
  {
  }

  lemma {:induction false} LinesSplit(first: Bytes, more: seq<Bytes>)
    requires OneLine(first) && forall l :: l in more ==> OneLine(l)
    ensures LinesOf(Lines(first, more)) == [first] + more
    decreases |more|
  {
    var s := Lines(first, more);
    if more != [] {
      var rest := Lines(more[0], more[1..]);
      BreakAfter(first, rest);
      assert s[..|first|] == first && s[|first| + 2..] == rest;
      assert more[0] in more && forall l :: l in more[1..] ==> l in more;
      LinesSplit(more[0], more[1..]);
      assert [more[0]] + more[1..] == more;
    }
  }

  /** A blank line comes after such lines, if none of them is empty. */
  lemma {:induction false} EndAfter(s: Bytes, body: Bytes)
    requires HeadEnd(s + [CR, LF, CR]).None?
    ensures HeadEnd(s + CRLF + CRLF + body) == Some(|s|)
  {
    var t := s + CRLF + CRLF + body;
    if s == [] {
      assert t == [CR, LF, CR, LF] + body;
    } else {
      var u := s + [CR, LF, CR];
      assert t[1..] == s[1..] + CRLF + CRLF + body && u[1..] == s[1..] + [CR, LF, CR];
      assert t[0] == u[0] && t[1] == u[1] && t[2] == u[2] && t[3] == u[3];
      EndAfter(s[1..], body);
    }
  }

  lemma {:induction false} NoEnd(first: Bytes, more: seq<Bytes>)
    requires OneLine(first) && first != [] && forall l :: l in more ==> OneLine(l) && l != []
    ensures HeadEnd(Lines(first, more) + [CR, LF, CR]).None?
    decreases |more|, |first|
  {
    var s := Lines(first, more) + [CR, LF, CR];
    if |first| == 1 {
      if more == [] {
        assert s == [first[0], CR, LF, CR];
        assert HeadEnd(s[1..]).None?;
      } else {
        var rest := Lines(more[0], more[1..]) + [CR, LF, CR];
        assert s == first + CRLF + rest;
        assert more[0] in more && forall l :: l in more[1..] ==> l in more;
        NoEnd(more[0], more[1..]);
        LinesStart(more[0], more[1..]);
        BreaksThenText(rest);
        assert s[1..] == CRLF + rest;
        assert s[0] == first[0] && s[1] == CR && s[2] == LF && s[3] == rest[0];
        NotEnd(first[0], rest);
      }
    } else {
      LinesStep(first, more);
      OneLineRest(first);
      NoEnd(first[1..], more);
      assert s[1..] == Lines(first[1..], more) + [CR, LF, CR];
      assert s[0] == first[0] && s[1] == first[1];
    }
  }

  lemma LinesStep(first: Bytes, more: seq<Bytes>)
    requires first != []
    ensures Lines(first, more) == [first[0]] + Lines(first[1..], more)
  {
  }

  lemma LinesStart(first: Bytes, more: seq<Bytes>)
    requires first != []
    ensures Lines(first, more) != [] && Lines(first, more)[0] == first[0]
    ensures |first| >= 2 ==> |Lines(first, more)| >= 2 && Lines(first, more)[1] == first[1]
    ensures |first| == 1 ==> Lines(first, more) == first || (|Lines(first, more)| >= 2 && Lines(first, more)[1] == CR)
  {
  }

  lemma EndLater(s: Bytes)
    requires |s| >= 4 && !(s[0] == CR && s[1] == LF && s[2] == CR && s[3] == LF)
    ensures HeadEnd(s).None? <==> HeadEnd(s[1..]).None?
  {
  }

  /** A line break before a text that neither holds a blank line nor begins with a break. */
  lemma BreaksThenText(rest: Bytes)
    requires HeadEnd(rest).None? && |rest| >= 2 && !(rest[0] == CR && rest[1] == LF)
    ensures HeadEnd(CRLF + rest).None?
  {
    hide HeadEnd;
    var s := CRLF + rest;
    assert s[1..] == [LF] + rest && s[1..][1..] == rest;
    assert s[2] == rest[0] && s[3] == rest[1];
    EndLater(s);
    if |rest| >= 3 {
      EndLater(s[1..]);
    } else {
      TooShort(s[1..]);
    }
  }

  lemma TooShort(s: Bytes)
    requires |s| < 4
    ensures HeadEnd(s).None?
  {
  }

  lemma NotEnd(b: byte, rest: Bytes)
    requires HeadEnd(CRLF + rest).None? && |rest| >= 1
    ensures HeadEnd([b] + CRLF + rest).None?
  {
    hide HeadEnd;
    var s := [b] + CRLF + rest;
    assert s[1..] == CRLF + rest && s[1] == CR;
    EndLater(s);
  }

  // --- the head ---------------------------------------------------------------------------

  lemma {:induction false} IndexBehind(a: Bytes, b: byte, rest: Bytes)
    requires b !in a
    ensures IndexOf(a + [b] + rest, b) == Some(|a|)
  {
    if a == [] {
      assert a + [b] + rest == [b] + rest;
    } else {
      assert a[0] in a && (a + [b] + rest)[1..] == a[1..] + [b] + rest;
      IndexBehind(a[1..], b, rest);
    }
  }

  lemma {:induction false} NoIndex(s: Bytes, b: byte)
    requires b !in s
    ensures IndexOf(s, b).None?
  {
    if s != [] {
      assert s[0] in s;
      NoIndex(s[1..], b);
    }
  }

  lemma SplitBehind(a: Bytes, b: byte, rest: Bytes)
    requires b !in a
    ensures SplitOn(a + [b] + rest, b) == [a] + SplitOn(rest, b)
  {
    IndexBehind(a, b, rest);
    assert (a + [b] + rest)[..|a|] == a && (a + [b] + rest)[|a| + 1..] == rest;
  }

  /** The three parts of the request line. */
  lemma PartsAre(verb: Bytes, path: Bytes, query: Bytes, version: Bytes)
    requires 32 !in verb && 32 !in query && 32 !in version
    ensures SplitOn(RequestLine(verb, path, query, version), 32) == [verb, Target(path, query), version]
    ensures HTTP_1 <= version <==> SpeaksOne(version)
  {
    hide *;
    var target := Target(path, query);
    TargetHasNoSpace(path, query);
    IsHttpOne(version);
    RequestLineIs(verb, path, query, version);
    SplitBehind(verb, 32, target + [32] + version);
    SplitBehind(target, 32, version);
    LastPart(version);
    assert [verb] + ([target] + [version]) == [verb, target, version];
  }

  lemma TargetHasNoSpace(path: Bytes, query: Bytes)
    requires 32 !in query
    ensures 32 !in Target(path, query)
  {
    EscapedReadsBack(path);
    hide Escaped;
  }

  lemma IsHttpOne(version: Bytes)
    ensures HTTP_1 <= version <==> SpeaksOne(version)
  {
  }

  lemma RequestLineIs(verb: Bytes, path: Bytes, query: Bytes, version: Bytes)
    ensures RequestLine(verb, path, query, version) == verb + [32] + (Target(path, query) + [32] + version)
  {
  }

  lemma LastPart(version: Bytes)
    requires 32 !in version
    ensures SplitOn(version, 32) == [version]
  {
    NoIndex(version, 32);
  }

  lemma RequestLineIsOne(verb: Bytes, path: Bytes, query: Bytes, version: Bytes)
    requires OneLine(verb) && OneLine(query) && OneLine(version)
    ensures OneLine(RequestLine(verb, path, query, version)) && RequestLine(verb, path, query, version) != []
  {
    EscapedReadsBack(path);
    NoBreak(Escaped(path));
    NoBreak([63]);
    NoBreak([]);
    NoBreak([32]);
    hide Crlf, Escaped;
    LineJoin([63], query);
    var asked := if query == [] then [] else [63] + query;
    LineJoin(Escaped(path), asked);
    LineJoin(Target(path, query), [32]);
    LineJoin(Target(path, query) + [32], version);
    LineJoin(verb, [32]);
    LineJoin(verb + [32], Target(path, query) + [32] + version);
  }

  lemma HeaderIsOne(l: Line)
    requires Writable(l)
    ensures OneLine(Header(l)) && Header(l) != []
  {
    hide OneLine, NameOf, ValueOf, Lowered, Tight;
    TextIsOne(NameOf(l), ValueOf(l));
  }

  lemma TextIsOne(name: Bytes, value: Bytes)
    requires OneLine(name) && OneLine(value)
    ensures OneLine(name + [58] + ([32] + value)) && name + [58] + ([32] + value) != []
  {
    NoBreak([58]);
    NoBreak([32]);
    hide OneLine;
    LineJoin([32], value);
    LineJoin(name, [58]);
    LineJoin(name + [58], [32] + value);
  }

  lemma TightStays(s: Bytes)
    requires Tight(s)
    ensures Trim(s) == s && Trim([32] + s) == s
  {
    assert ([32] + s)[1..] == s;
  }

  lemma LoweredIsLower(s: Bytes)
    ensures HttpParse.Lower(s) == Lowered(s)
    ensures Lowered(LENGTH) == CONTENT_LENGTH && Lowered(ENCODING) == TRANSFER_ENCODING
  {
  }

  lemma FieldIsRead(name: Bytes, value: Bytes, f: Fields)
    requires 58 !in name && Tight(name) && Tight(value)
    ensures ReadField(name + [58] + ([32] + value), f)
         == if Lowered(name) == CONTENT_LENGTH && UsizeOf(value).None? then None
            else Some(Fields(f.headers + [(Lowered(name), value)],
                             if Lowered(name) == CONTENT_LENGTH then UsizeOf(value).value else f.length,
                             f.te || Lowered(name) == TRANSFER_ENCODING))
  {
    var line := name + [58] + ([32] + value);
    IndexBehind(name, 58, [32] + value);
    assert line[..|name|] == name && line[|name| + 1..] == [32] + value;
    TightStays(name);
    TightStays(value);
    LoweredIsLower(name);
    hide Trim, HttpParse.Lower, UsizeOf, IndexOf, Lowered;
  }

  /** One header, as it is read. */
  lemma HeaderIsRead(l: Line, f: Fields)
    requires Writable(l)
    ensures ReadField(Header(l), f)
         == if l.Length? && l.n > USIZE_MAX then None
            else Some(Fields(f.headers + [(Lowered(NameOf(l)), ValueOf(l))], if l.Length? then l.n else f.length, f.te || l.Coding?))
  {
    hide ReadField, UsizeOf, Digits, Lowered, OneLine, Tight;
    FieldIsRead(NameOf(l), ValueOf(l), f);
    LoweredIsLower([]);
    NamesDiffer();
    if l.Length? {
      LengthReadsBack(l.n);
    }
    hide *;
    HeaderFrom(l, f);
  }

  lemma HeaderFrom(l: Line, f: Fields)
    requires var name, value := Lowered(NameOf(l)), ValueOf(l);
             ReadField(Header(l), f)
             == if name == CONTENT_LENGTH && UsizeOf(value).None? then None
                else Some(Fields(f.headers + [(name, value)], if name == CONTENT_LENGTH then UsizeOf(value).value else f.length,
                                 f.te || name == TRANSFER_ENCODING))
    requires Lowered(NameOf(l)) == CONTENT_LENGTH <==> l.Length?
    requires Lowered(NameOf(l)) == TRANSFER_ENCODING <==> l.Coding?
    requires l.Length? ==> UsizeOf(ValueOf(l)) == if l.n <= USIZE_MAX then Some(l.n) else None
    ensures ReadField(Header(l), f)
         == if l.Length? && l.n > USIZE_MAX then None
            else Some(Fields(f.headers + [(Lowered(NameOf(l)), ValueOf(l))], if l.Length? then l.n else f.length, f.te || l.Coding?))
  {
    hide *;
  }

  lemma NamesDiffer()
    ensures CONTENT_LENGTH != TRANSFER_ENCODING
  {
    assert |CONTENT_LENGTH| != |TRANSFER_ENCODING|;
  }

  lemma {:induction false} HeadersAreRead(lines: seq<Line>, f: Fields)
    requires forall l :: l in lines ==> Writable(l)
    ensures ReadFields(Headers(lines), f)
         == if AnyTooLong(lines) then None
            else Some(Fields(f.headers + Given(lines), LengthTold(lines, f.length), f.te || AnyCoding(lines)))
    decreases |lines|
  {
    hide Header, Headers, Given, Writable, ReadField, Lowered, NameOf, ValueOf, AnyTooLong, AnyCoding;
    if lines == [] {
      NoHeaders(f.headers);
    } else {
      var l, rest := lines[0], lines[1..];
      assert l in lines && forall x :: x in rest ==> x in lines;
      HeaderIsRead(l, f);
      HeadersNext(lines, f.headers);
      FirstOrRest(lines);
      if !(l.Length? && l.n > USIZE_MAX) {
        HeadersAreRead(rest, Fields(f.headers + [(Lowered(NameOf(l)), ValueOf(l))], if l.Length? then l.n else f.length, f.te || l.Coding?));
      }
    }
  }

  lemma NoHeaders(before: seq<(Bytes, Bytes)>)
    ensures Headers([]) == [] && before + Given([]) == before && !AnyTooLong([]) && !AnyCoding([])
  {
  }

  lemma HeadersNext(lines: seq<Line>, before: seq<(Bytes, Bytes)>)
    requires lines != []
    ensures Headers(lines) == [Header(lines[0])] + Headers(lines[1..])
    ensures before + Given(lines) == before + [(Lowered(NameOf(lines[0])), ValueOf(lines[0]))] + Given(lines[1..])
  {
    hide Header, Lowered, NameOf, ValueOf;
    assert Given(lines) == [(Lowered(NameOf(lines[0])), ValueOf(lines[0]))] + Given(lines[1..]);
  }

  lemma FirstOrRest(lines: seq<Line>)
    requires lines != []
    ensures AnyTooLong(lines) <==> (lines[0].Length? && lines[0].n > USIZE_MAX) || AnyTooLong(lines[1..])
    ensures AnyCoding(lines) <==> lines[0].Coding? || AnyCoding(lines[1..])
  {
    forall i | 0 < i < |lines| ensures lines[i] == lines[1..][i - 1] {}
    if AnyTooLong(lines[1..]) {
      var i :| 0 <= i < |lines[1..]| && lines[1..][i].Length? && lines[1..][i].n > USIZE_MAX;
      assert lines[i + 1].Length?;
    }
    if AnyCoding(lines[1..]) {
      var i :| 0 <= i < |lines[1..]| && lines[1..][i].Coding?;
      assert lines[i + 1].Coding?;
    }
  }

  /** What the head says of the request. */
  lemma HeadIsRead(verb: Bytes, path: Bytes, query: Bytes, version: Bytes, lines: seq<Line>, maxBody: nat, utf8: Utf8)
    requires Sendable(verb, query, version, lines)
    ensures ReadHead(HeadOf(verb, path, query, version, lines), maxBody, utf8)
         == if !utf8(HeadOf(verb, path, query, version, lines)) || !SpeaksOne(version) || |Target(path, query)| > MAX_TARGET_BYTES
               || AnyTooLong(lines) then Err(400)
            else if AnyCoding(lines) then Err(501)
            else if LengthTold(lines, 0) > maxBody then Err(413)
            else Ok(HttpParse.Head(verb, Target(path, query), Fields(Given(lines), LengthTold(lines, 0), false)))
  {
    var first, more := RequestLine(verb, path, query, version), Headers(lines);
    RequestLineIsOne(verb, path, query, version);
    forall m | m in more ensures OneLine(m) {
      var i :| 0 <= i < |more| && more[i] == m;
      HeaderIsOne(lines[i]);
    }
    LinesSplit(first, more);
    PartsAre(verb, path, query, version);
    HeadersAreRead(lines, Fields([], 0, false));
    hide *;
    HeadFrom(verb, path, query, version, lines, maxBody, utf8);
  }

  lemma HeadFrom(verb: Bytes, path: Bytes, query: Bytes, version: Bytes, lines: seq<Line>, maxBody: nat, utf8: Utf8)
    requires LinesOf(HeadOf(verb, path, query, version, lines)) == [RequestLine(verb, path, query, version)] + Headers(lines)
    requires SplitOn(RequestLine(verb, path, query, version), 32) == [verb, Target(path, query), version]
    requires HTTP_1 <= version <==> SpeaksOne(version)
    requires ReadFields(Headers(lines), Fields([], 0, false))
          == if AnyTooLong(lines) then None else Some(Fields([] + Given(lines), LengthTold(lines, 0), false || AnyCoding(lines)))
    ensures ReadHead(HeadOf(verb, path, query, version, lines), maxBody, utf8)
         == if !utf8(HeadOf(verb, path, query, version, lines)) || !SpeaksOne(version) || |Target(path, query)| > MAX_TARGET_BYTES
               || AnyTooLong(lines) then Err(400)
            else if AnyCoding(lines) then Err(501)
            else if LengthTold(lines, 0) > maxBody then Err(413)
            else Ok(HttpParse.Head(verb, Target(path, query), Fields(Given(lines), LengthTold(lines, 0), false)))
  {
    hide LinesOf, SplitOn, ReadFields, HeadOf, RequestLine, SpeaksOne, Headers, Target, AnyTooLong, AnyCoding, Given, LengthTold;
    var all := [RequestLine(verb, path, query, version)] + Headers(lines);
    assert all[0] == RequestLine(verb, path, query, version) && all[1..] == Headers(lines);
    assert [] + Given(lines) == Given(lines);
  }

  // --- the request ------------------------------------------------------------------------

  lemma TargetSplits(path: Bytes, query: Bytes)
    ensures var target, cut := Target(path, query), IndexOf(Target(path, query), QUESTION);
            && (if cut.Some? then target[..cut.value] else target) == Escaped(path)
            && (if cut.Some? then target[cut.value + 1..] else []) == query
  {
    EscapedReadsBack(path);
    hide Escaped;
    var e, target := Escaped(path), Target(path, query);
    if query == [] {
      assert target == e;
      NoIndex(e, QUESTION);
    } else {
      IndexBehind(e, QUESTION, query);
      assert target == e + [QUESTION] + query;
      assert target[..|e|] == e && target[|e| + 1..] == query;
    }
  }

  lemma RequestIsFinished(verb: Bytes, path: Bytes, query: Bytes, version: Bytes, lines: seq<Line>, body: Bytes, n: nat, utf8: Utf8)
    ensures Finish(HttpParse.Head(verb, Target(path, query), Fields(Given(lines), n, false)), body, utf8)
         == if utf8(path) then Some(Request(verb, path, query, Given(lines), body)) else None
  {
    TargetSplits(path, query);
    EscapedReadsBack(path);
    hide UrlDecode, Escaped, Target, IndexOf, Given;
  }

  lemma HeadEnds(verb: Bytes, path: Bytes, query: Bytes, version: Bytes, lines: seq<Line>, body: Bytes)
    requires Sendable(verb, query, version, lines)
    ensures HeadEnd(Written(verb, path, query, version, lines, body)) == Some(|HeadOf(verb, path, query, version, lines)|)
  {
    RequestLineIsOne(verb, path, query, version);
    forall m | m in Headers(lines) ensures OneLine(m) && m != [] {
      var i :| 0 <= i < |lines| && Headers(lines)[i] == m;
      HeaderIsOne(lines[i]);
    }
    hide HeadEnd, RequestLine, Headers, OneLine;
    NoEnd(RequestLine(verb, path, query, version), Headers(lines));
    EndAfter(HeadOf(verb, path, query, version, lines), body);
  }

  /** A request written out, with whatever comes behind it, is read as just that request, its path
      decoded, its names in lower case, its body as long as its last length says, and the rest left;
      or it is refused, for its head's size, for its form, for a coding, or for its body's size. */
  lemma WrittenIsRead(
    verb: Bytes, path: Bytes, query: Bytes, version: Bytes, lines: seq<Line>, body: Bytes, rest: Bytes, maxBody: nat, utf8: Utf8)
    requires Sendable(verb, query, version, lines) && |body| == LengthTold(lines, 0)
    ensures var head := HeadOf(verb, path, query, version, lines);
            TryParse(Written(verb, path, query, version, lines, body) + rest, maxBody, utf8)
            == if |head| > MAX_HEADER_BYTES then Bad(431)
               else if !utf8(head) || !SpeaksOne(version) || |Target(path, query)| > MAX_TARGET_BYTES || AnyTooLong(lines) then Bad(400)
               else if AnyCoding(lines) then Bad(501)
               else if |body| > maxBody then Bad(413)
               else if !utf8(path) then Bad(400)
               else Complete(Request(verb, path, query, Given(lines), body), rest)
  {
    HeadIsRead(verb, path, query, version, lines, maxBody, utf8);
    HeadEnds(verb, path, query, version, lines, body + rest);
    RequestIsFinished(verb, path, query, version, lines, body, |body|, utf8);
    hide HeadEnd, ReadHead, Finish, HeadOf, Target, Given, AnyTooLong, AnyCoding, LengthTold, Sendable, SpeaksOne;
    var head := HeadOf(verb, path, query, version, lines);
    var all := Written(verb, path, query, version, lines, body) + rest;
    assert all == Written(verb, path, query, version, lines, body + rest) by {
      Regroup(head + CRLF + CRLF, body, rest);
    }
    Cuts(head, body, rest);
  }

  lemma Cuts(head: Bytes, body: Bytes, rest: Bytes)
    ensures var all := head + CRLF + CRLF + (body + rest);
            && |all| >= |head| + 4 + |body| && all[..|head|] == head
            && all[|head| + 4..|head| + 4 + |body|] == body && all[|head| + 4 + |body|..] == rest
  {
    var all := head + CRLF + CRLF + (body + rest);
    assert all[|head| + 4..] == body + rest;
  }
}
