/** The grammar of requests that backchannel/src/httpd.rs, `try_parse`, takes, and what it makes of any
    buffer by that grammar. */
module HttpGrammar {
  import opened Common
  import opened ByteText
  import opened ChunkedCoding
  import opened HttpParse
  import G = ChunkGrammar
  import W = HttpWrite

  // --- escapes --------------------------------------------------------------------------

  /** A byte of a path: itself, or what two hexadecimal digits behind a percent sign say. */
  datatype Token = Itself(b: byte) | Pair(high: byte, low: byte)

  ghost predicate IsToken(t: Token, means: byte) {
    match t
    case Itself(b) => b != 37 && means == if b == 43 then 32 else b
    case Pair(high, low) => exists h: nat, l: nat :: G.IsDigit(high, h) && G.IsDigit(low, l) && means as nat == h * 16 + l
  }

  function Spelled(t: Token): Bytes {
    match t
    case Itself(b) => [b]
    case Pair(high, low) => [37, high, low]
  }

  function SpelledAll(ts: seq<Token>): Bytes {
    if ts == [] then [] else Spelled(ts[0]) + SpelledAll(ts[1..])
  }

  ghost predicate Escapes(s: Bytes, path: Bytes, ts: seq<Token>) {
    s == SpelledAll(ts) && |ts| == |path| && forall i :: 0 <= i < |ts| ==> IsToken(ts[i], path[i])
  }

  lemma TokenIsRead(t: Token, means: byte, rest: Bytes)
    requires IsToken(t, means)
    ensures UrlDecode(Spelled(t) + rest) == Prefixed([means], UrlDecode(rest))
  {
    hide DigitOf, G.IsDigit;
    var s := Spelled(t) + rest;
    match t
    case Itself(b) =>
      assert s[1..] == rest;
    case Pair(high, low) =>
      var h: nat, l: nat :| G.IsDigit(high, h) && G.IsDigit(low, l) && means as nat == h * 16 + l;
      G.DigitIff(high, h);
      G.DigitIff(low, l);
      assert s[1] == high && s[2] == low && s[3..] == rest;
  }

  lemma {:induction false} EscapesAreRead(s: Bytes, path: Bytes, ts: seq<Token>)
    requires Escapes(s, path, ts)
    ensures UrlDecode(s) == Some(path)
    decreases |ts|
  {
    hide UrlDecode, IsToken, Spelled;
    if ts == [] {
      W.NothingReadsBack();
    } else {
      EscapesAreRead(SpelledAll(ts[1..]), path[1..], ts[1..]);
      TokenIsRead(ts[0], path[0], SpelledAll(ts[1..]));
      assert path == [path[0]] + path[1..];
    }
  }

  /** The first token of what decodes. */
  lemma FirstToken(s: Bytes) returns (t: Token, rest: Bytes)
    requires s != [] && UrlDecode(s).Some?
    ensures UrlDecode(rest).Some? && s == Spelled(t) + rest && UrlDecode(s).value != []
    ensures IsToken(t, UrlDecode(s).value[0]) && UrlDecode(s).value[1..] == UrlDecode(rest).value
  {
    if s[0] == PERCENT {
      var h, l := DigitOf(s[1]).value, DigitOf(s[2]).value;
      G.DigitIff(s[1], h);
      G.DigitIff(s[2], l);
      t, rest := Pair(s[1], s[2]), s[3..];
      assert UrlDecode(s).value[0] as nat == h * 16 + l;
      assert s == [37, s[1], s[2]] + s[3..];
    } else {
      t, rest := Itself(s[0]), s[1..];
      assert s == [s[0]] + s[1..];
    }
  }

  lemma {:induction false} ReadIsEscaped(s: Bytes) returns (ts: seq<Token>)
    requires UrlDecode(s).Some?
    ensures Escapes(s, UrlDecode(s).value, ts)
    decreases |s|
  {
    hide UrlDecode, IsToken;
    if s == [] {
      W.NothingReadsBack();
      ts := [];
    } else {
      var t, rest := FirstToken(s);
      var more := ReadIsEscaped(rest);
      ts := [t] + more;
      assert ts[1..] == more;
      var path := UrlDecode(s).value;
      forall i | 0 <= i < |ts| ensures IsToken(ts[i], path[i]) {
        if i > 0 {
          assert ts[i] == more[i - 1] && path[i] == path[1..][i - 1];
        }
      }
    }
  }

  ghost predicate DecodesTo(s: Bytes, path: Bytes) {
    exists ts :: Escapes(s, path, ts)
  }

  /** A path decodes exactly if it is made of plain bytes and whole pairs, and then to what they say. */
  lemma DecodesIff(s: Bytes, path: Bytes)
    ensures UrlDecode(s) == Some(path) <==> DecodesTo(s, path)
  {
    if UrlDecode(s) == Some(path) {
      var ts := ReadIsEscaped(s);
    }
    if DecodesTo(s, path) {
      var ts :| Escapes(s, path, ts);
      EscapesAreRead(s, path, ts);
    }
  }

  // --- numbers --------------------------------------------------------------------------

  predicate Counts(s: Bytes, n: nat)
    decreases |s|
  {
    if s == [] then n == 0 else s[|s| - 1] as nat == 48 + n % 10 && Counts(s[..|s| - 1], n / 10)
  }

  /** A plus sign or none, and decimal digits. */
  ghost predicate Tells(s: Bytes, n: nat) {
    exists sign, digits :: s == sign + digits && (sign == [] || sign == [43]) && digits != [] && Counts(digits, n) && n <= USIZE_MAX
  }

  lemma Parts(n: nat, high: nat, low: nat)
    requires low < 10
    ensures n == high * 10 + low <==> high == n / 10 && low == n % 10
  {
  }

  lemma {:induction false} CountsIff(s: Bytes, n: nat)
    ensures Decimal(s) == Some(n) <==> Counts(s, n)
    decreases |s|
  {
    if s != [] {
      var b, more := s[|s| - 1], s[..|s| - 1];
      CountsIff(more, n / 10);
      if Decimal(more).Some? && IsDigit(b) {
        Parts(n, Decimal(more).value, (b - 48) as nat);
      }
    }
  }

  lemma CountsDigits(s: Bytes, n: nat)
    requires Counts(s, n) && s != []
    ensures s[0] != 43
    decreases |s|
  {
    if |s| > 1 {
      CountsDigits(s[..|s| - 1], n / 10);
    }
  }

  lemma TellsIff(s: Bytes, n: nat)
    ensures UsizeOf(s) == Some(n) <==> Tells(s, n)
  {
    hide Decimal, Counts;
    if Tells(s, n) {
      var sign, digits :| s == sign + digits && (sign == [] || sign == [43]) && digits != [] && Counts(digits, n) && n <= USIZE_MAX;
      CountsDigits(digits, n);
      CountsIff(digits, n);
      assert sign == [] ==> s == digits;
      assert sign == [43] ==> s[1..] == digits;
    }
    if UsizeOf(s) == Some(n) {
      var sign := if s != [] && s[0] == 43 then [43] else [];
      var digits := s[|sign|..];
      CountsIff(digits, n);
      assert s == sign + digits;
    }
  }

  // --- header lines ---------------------------------------------------------------------

  /** The same text without the white space around it. */
  ghost predicate Trimmed(s: Bytes, t: Bytes) {
    exists left, right :: s == left + t + right && G.Spaces(left) && G.Spaces(right) && W.Tight(t)
  }

  lemma TrimTightens(s: Bytes)
    ensures W.Tight(Trim(s))
    decreases |s|
  {
  }

  lemma TrimIs(s: Bytes)
    ensures Trimmed(s, Trim(s))
  {
    hide Trim, W.Tight;
    TrimTightens(s);
    var left, right := G.TrimSplits(s);
  }

  /** A name, a colon, a value, white space around both, the name in any case. */
  ghost predicate IsField(line: Bytes, name: Bytes, value: Bytes) {
    exists a, b, t :: line == a + [58] + b && 58 !in a && Trimmed(a, t) && name == W.Lowered(t) && Trimmed(b, value)
  }

  /** The headers that lines hold, in their order; a line without a colon holds none. */
  ghost predicate Listed(lines: seq<Bytes>, hs: seq<(Bytes, Bytes)>)
    decreases |lines|
  {
    if lines == [] then hs == []
    else if 58 !in lines[0] then Listed(lines[1..], hs)
    else hs != [] && IsField(lines[0], hs[0].0, hs[0].1) && Listed(lines[1..], hs[1..])
  }

  lemma FieldFrom(a: Bytes, b: Bytes, t: Bytes, value: Bytes)
    requires 58 !in a && Trimmed(a, t) && Trimmed(b, value)
    ensures IsField(a + [58] + b, W.Lowered(t), value)
  {
    hide Trimmed, W.Lowered;
  }

  lemma CutAt(line: Bytes, b: byte, i: nat)
    requires i < |line| && line[i] == b
    ensures line == line[..i] + [b] + line[i + 1..]
  {
  }

  lemma FieldIs(line: Bytes)
    requires 58 in line
    ensures IndexOf(line, COLON).Some?
    ensures var i := IndexOf(line, COLON).value; IsField(line, Lower(Trim(line[..i])), Trim(line[i + 1..]))
  {
    hide Trim, Trimmed, IsField, W.Lowered, Lower, IndexOf;
    var i := IndexOf(line, COLON).value;
    var a, b := line[..i], line[i + 1..];
    CutAt(line, 58, i);
    TrimIs(a);
    TrimIs(b);
    LowerIs(Trim(a));
    FieldFrom(a, b, Trim(a), Trim(b));
  }

  lemma LowerIs(s: Bytes)
    ensures Lower(s) == W.Lowered(s)
  {
  }

  /** The length told: by the last header of that name, or 0. */
  ghost predicate LengthIs(hs: seq<(Bytes, Bytes)>, n: nat) {
    if hs == [] then n == 0
    else
      var last := hs[|hs| - 1];
      if last.0 == CONTENT_LENGTH then Tells(last.1, n) else LengthIs(hs[..|hs| - 1], n)
  }

  predicate Coded(hs: seq<(Bytes, Bytes)>) {
    exists i :: 0 <= i < |hs| && hs[i].0 == TRANSFER_ENCODING
  }

  /** A length that is no number. */
  ghost predicate BadLength(hs: seq<(Bytes, Bytes)>) {
    exists i :: 0 <= i < |hs| && hs[i].0 == CONTENT_LENGTH && forall n: nat :: !Tells(hs[i].1, n)
  }

  ghost predicate FieldsAre(hs: seq<(Bytes, Bytes)>, f: Fields) {
    f.headers == hs && LengthIs(hs, f.length) && (f.te <==> Coded(hs)) && !BadLength(hs)
  }

  lemma NoFields()
    ensures FieldsAre([], Fields([], 0, false))
  {
  }

  lemma OneField(line: Bytes, f: Fields)
    requires FieldsAre(f.headers, f) && 58 in line
    ensures exists h: (Bytes, Bytes) :: IsField(line, h.0, h.1)
                        && match ReadField(line, f)
                           case Some(g) => FieldsAre(f.headers + [h], g)
                           case None => BadLength([h])
  {
    hide IndexOf, Trim, Lower, UsizeOf, Tells, IsField;
    FieldIs(line);
    var i := IndexOf(line, COLON).value;
    var h := (Lower(Trim(line[..i])), Trim(line[i + 1..]));
    TellsAtAll(h.1);
    var hs := f.headers + [h];
    assert hs[..|hs| - 1] == f.headers && hs[|hs| - 1] == h;
    match ReadField(line, f)
    case None =>
      assert [h][0] == h;
    case Some(g) =>
      assert forall k :: 0 <= k < |f.headers| ==> hs[k] == f.headers[k];
      if f.te {
        var k :| 0 <= k < |f.headers| && f.headers[k].0 == TRANSFER_ENCODING;
        assert hs[k].0 == TRANSFER_ENCODING;
      }
  }

  lemma TellsAtAll(s: Bytes)
    ensures UsizeOf(s).None? <==> forall n: nat :: !Tells(s, n)
    ensures UsizeOf(s).Some? ==> Tells(s, UsizeOf(s).value)
  {
    hide UsizeOf, Tells;
    forall n: nat ensures UsizeOf(s) == Some(n) <==> Tells(s, n) {
      TellsIff(s, n);
    }
  }

  /** The header lines are read as the headers they hold, the last length told and whether a coding
      is named; or there is a length that is no number. */
  lemma {:induction false} LinesAreRead(lines: seq<Bytes>, f: Fields) returns (hs: seq<(Bytes, Bytes)>)
    requires FieldsAre(f.headers, f)
    ensures Listed(lines, hs)
    ensures match ReadFields(lines, f)
            case Some(g) => FieldsAre(f.headers + hs, g)
            case None => BadLength(hs)
    decreases |lines|
  {
    hide ReadField, IsField, FieldsAre, BadLength;
    if lines == [] {
      hs := [];
      assert f.headers + [] == f.headers;
    } else if 58 !in lines[0] {
      Unread(lines[0], f);
      hs := LinesAreRead(lines[1..], f);
    } else {
      OneField(lines[0], f);
      var h: (Bytes, Bytes) :| IsField(lines[0], h.0, h.1) && match ReadField(lines[0], f)
                                              case Some(g) => FieldsAre(f.headers + [h], g)
                                              case None => BadLength([h]);
      var more: seq<(Bytes, Bytes)>;
      if ReadField(lines[0], f).Some? {
        var g := ReadField(lines[0], f).value;
        HeadersAre(f.headers + [h], g);
        more := LinesAreRead(lines[1..], g);
        assert f.headers + [h] + more == f.headers + ([h] + more);
      } else {
        NoFields();
        more := LinesAreRead(lines[1..], Fields([], 0, false));
      }
      hs := [h] + more;
      assert hs[1..] == more;
      BadStays([h], more);
    }
  }

  lemma Unread(line: Bytes, f: Fields)
    requires 58 !in line
    ensures ReadField(line, f) == Some(f)
  {
  }

  lemma HeadersAre(hs: seq<(Bytes, Bytes)>, f: Fields)
    requires FieldsAre(hs, f)
    ensures f.headers == hs
  {
  }

  lemma BadStays(a: seq<(Bytes, Bytes)>, b: seq<(Bytes, Bytes)>)
    ensures BadLength(a) || BadLength(b) ==> BadLength(a + b)
  {
    hide Tells;
    var s := a + b;
    if BadLength(a) {
      var i :| 0 <= i < |a| && a[i].0 == CONTENT_LENGTH && forall n: nat :: !Tells(a[i].1, n);
      assert s[i] == a[i];
    } else if BadLength(b) {
      var i :| 0 <= i < |b| && b[i].0 == CONTENT_LENGTH && forall n: nat :: !Tells(b[i].1, n);
      assert s[|a| + i] == b[i];
    }
  }

  // --- the head -------------------------------------------------------------------------

  /** Verb, target and version, and what another space begins. */
  ghost predicate IsRequestLine(line: Bytes, verb: Bytes, target: Bytes, version: Bytes) {
    exists more :: line == verb + [32] + target + [32] + version + more
                   && 32 !in verb && 32 !in target && 32 !in version && (more == [] || more[0] == 32)
  }

  lemma {:induction false} SplitIs(s: Bytes, b: byte)
    ensures var r := SplitOn(s, b);
            && b !in r[0] && r[0] <= s && (|r| == 1 ==> s == r[0])
            && (|r| > 1 ==> |r[0]| < |s| && s[|r[0]|] == b && r[1..] == SplitOn(s[|r[0]| + 1..], b))
  {
    var i := IndexOf(s, b);
    if i.Some? {
      assert SplitOn(s, b)[1..] == SplitOn(s[i.value + 1..], b);
    }
  }

  lemma LineFrom(verb: Bytes, target: Bytes, version: Bytes, more: Bytes)
    requires 32 !in verb && 32 !in target && 32 !in version && (more == [] || more[0] == 32)
    ensures IsRequestLine(verb + [32] + (target + [32] + (version + more)), verb, target, version)
  {
    assert verb + [32] + (target + [32] + (version + more)) == verb + [32] + target + [32] + version + more;
  }

  /** A line of three parts has one reading. */
  lemma LineSplits(line: Bytes, verb: Bytes, target: Bytes, version: Bytes)
    requires IsRequestLine(line, verb, target, version)
    ensures var parts := SplitOn(line, 32); |parts| >= 3 && parts[0] == verb && parts[1] == target && parts[2] == version
  {
    hide SplitOn;
    var more :| line == verb + [32] + target + [32] + version + more && (more == [] || more[0] == 32);
    assert line == verb + [32] + (target + [32] + (version + more));
    W.SplitBehind(verb, 32, target + [32] + (version + more));
    W.SplitBehind(target, 32, version + more);
    if more == [] {
      assert version + more == version;
      Unsplit(version);
    } else {
      assert version + more == version + [32] + more[1..];
      W.SplitBehind(version, 32, more[1..]);
    }
  }

  lemma Unsplit(s: Bytes)
    requires 32 !in s
    ensures SplitOn(s, 32) == [s]
  {
  }

  lemma NextPart(s: Bytes, parts: seq<Bytes>) returns (rest: Bytes)
    requires parts == SplitOn(s, 32) && |parts| > 1
    ensures s == parts[0] + [32] + rest && 32 !in parts[0] && parts[1..] == SplitOn(rest, 32)
  {
    hide SplitOn;
    SplitIs(s, 32);
    CutAt(s, 32, |parts[0]|);
    rest := s[|parts[0]| + 1..];
  }

  /** And a line split in three or more has one. */
  lemma RequestLineIs(line: Bytes, parts: seq<Bytes>)
    requires parts == SplitOn(line, 32) && |parts| >= 3
    ensures IsRequestLine(line, parts[0], parts[1], parts[2])
  {
    hide SplitOn, IsRequestLine;
    var a := NextPart(line, parts);
    var b := NextPart(a, parts[1..]);
    assert parts[1..][1..][0] == parts[2];
    EndOfPart(b);
    var more := b[|parts[2]|..];
    Regroup(parts[0], [32], a);
    LineFrom(parts[0], parts[1], parts[2], more);
    assert line == parts[0] + [32] + (parts[1] + [32] + (parts[2] + more)) by {
      Regroup(parts[1], [32], b);
    }
  }

  lemma EndOfPart(b: Bytes)
    ensures var p := SplitOn(b, 32)[0]; p <= b && 32 !in p && (b[|p|..] == [] || b[|p|] == 32) && b == p + b[|p|..]
  {
    hide SplitOn;
    SplitIs(b, 32);
    var parts := SplitOn(b, 32);
    assert |parts| == 1 ==> b[|parts[0]|..] == [];
    assert b == parts[0] + b[|parts[0]|..];
  }

  /** Four bytes that end a head. */
  predicate EndAt(b: Bytes, i: nat) {
    i + 4 <= |b| && b[i] == CR && b[i + 1] == LF && b[i + 2] == CR && b[i + 3] == LF
  }

  ghost predicate NoEndBefore(b: Bytes, n: nat) {
    forall i: nat :: i < n ==> !EndAt(b, i)
  }

  lemma {:induction false} EndIs(b: Bytes)
    ensures match HeadEnd(b)
            case None => NoEndBefore(b, |b|)
            case Some(h) => EndAt(b, h) && NoEndBefore(b, h)
  {
    if |b| >= 4 && !EndAt(b, 0) {
      EndIs(b[1..]);
      forall i: nat ensures i > 0 ==> (EndAt(b, i) <==> EndAt(b[1..], i - 1)) {
      }
    }
  }

  /** Lines, each but the first behind a line break. */
  lemma {:induction false} LinesAre(s: Bytes)
    ensures var ls := LinesOf(s); s == W.Lines(ls[0], ls[1..]) && forall l :: l in ls ==> G.OneLine(l)
    decreases |s|
  {
    hide G.OneLine;
    G.BreakIs(s);
    if Crlf(s).Some? {
      var p := Crlf(s).value;
      var rest := LinesOf(s[p + 2..]);
      LinesAre(s[p + 2..]);
      assert LinesOf(s)[1..] == rest;
    } else {
      assert LinesOf(s)[1..] == [];
    }
  }

  // --- requests -------------------------------------------------------------------------

  const BLANK: Bytes := [CR, LF, CR, LF]

  /** What a buffer is taken apart into. */
  datatype Reading = Reading(
    head: Bytes, line: Bytes, lines: seq<Bytes>, after: Bytes,
    verb: Bytes, target: Bytes, version: Bytes, headers: seq<(Bytes, Bytes)>, length: nat)

  /** A head, the first blank line, and what is behind it; the head is a line and more lines. */
  ghost predicate Splits(b: Bytes, x: Reading) {
    && b == x.head + BLANK + x.after && NoEndBefore(b, |x.head|)
    && x.head == W.Lines(x.line, x.lines) && G.OneLine(x.line) && forall l :: l in x.lines ==> G.OneLine(l)
  }

  ghost predicate LineIsGood(x: Reading) {
    IsRequestLine(x.line, x.verb, x.target, x.version) && HTTP_1 <= x.version && |x.target| <= 4096
  }

  /** The head is text, its first line a request of this protocol, and every length in it a number. */
  ghost predicate Understood(x: Reading, utf8: Utf8) {
    utf8(x.head) && LineIsGood(x) && Listed(x.lines, x.headers) && !BadLength(x.headers) && LengthIs(x.headers, x.length)
  }

  ghost predicate Malformed(x: Reading, utf8: Utf8) {
    || !utf8(x.head)
    || (forall v, t, w :: IsRequestLine(x.line, v, t, w) ==> !(HTTP_1 <= w) || |t| > 4096)
    || (Listed(x.lines, x.headers) && BadLength(x.headers))
  }

  /** The path and the query of a target. */
  ghost predicate TargetIs(target: Bytes, path: Bytes, query: Bytes) {
    exists raw :: 63 !in raw && DecodesTo(raw, path) && ((target == raw && query == []) || target == raw + [63] + query)
  }

  ghost predicate HasPath(target: Bytes, utf8: Utf8) {
    exists path, query :: TargetIs(target, path, query) && utf8(path)
  }

  /** Which result has what cause. */
  ghost predicate Verdict(b: Bytes, maxBody: nat, utf8: Utf8, x: Reading, r: Parse) {
    match r
    case Complete(req, left) =>
      && Splits(b, x) && |x.head| <= 16384 && Understood(x, utf8) && !Coded(x.headers) && x.length <= maxBody
      && x.after == req.body + left && |req.body| == x.length
      && req.verb == x.verb && req.headers == x.headers && TargetIs(x.target, req.path, req.query) && utf8(req.path)
    case Partial(inBody) =>
      if inBody
      then Splits(b, x) && |x.head| <= 16384 && Understood(x, utf8) && !Coded(x.headers) && |x.after| < x.length <= maxBody
      else |b| <= 16384 && NoEndBefore(b, |b|)
    case Bad(code) =>
      if code == 431 then (|b| > 16384 && NoEndBefore(b, |b|)) || (Splits(b, x) && |x.head| > 16384)
      else
        && Splits(b, x) && |x.head| <= 16384
        && if code == 501 then Understood(x, utf8) && Coded(x.headers)
           else if code == 413 then Understood(x, utf8) && !Coded(x.headers) && x.length > maxBody
           else
             code == 400
             && (|| Malformed(x, utf8)
                 || (Understood(x, utf8) && !Coded(x.headers) && x.length <= |x.after| && x.length <= maxBody && !HasPath(x.target, utf8)))
  }

  lemma BlankIs(b: Bytes, h: nat)
    requires EndAt(b, h)
    ensures b == b[..h] + BLANK + b[h + 4..]
  {
  }

  /** A head is read as what it says, or refused for what is wrong with it. */
  lemma HeadIs(head: Bytes, maxBody: nat, utf8: Utf8) returns (x: Reading)
    ensures x.head == head && x.line == LinesOf(head)[0] && x.lines == LinesOf(head)[1..]
    ensures match ReadHead(head, maxBody, utf8)
            case Err(code) =>
              if code == 501 then Understood(x, utf8) && Coded(x.headers)
              else if code == 413 then Understood(x, utf8) && !Coded(x.headers) && x.length > maxBody
              else code == 400 && Malformed(x, utf8)
            case Ok(h) =>
              && Understood(x, utf8) && !Coded(x.headers) && x.length <= maxBody
              && h.verb == x.verb && h.target == x.target && h.fields.headers == x.headers && h.fields.length == x.length
  {
    hide LinesOf, SplitOn, ReadFields, IsRequestLine, Listed, BadLength, LengthIs, Coded;
    var lines := LinesOf(head);
    var parts := SplitOn(lines[0], SPACE);
    NoFields();
    var blank := Fields([], 0, false);
    var hs := LinesAreRead(lines[1..], blank);
    assert [] + hs == hs;
    var n := match ReadFields(lines[1..], blank) case Some(f) => f.length case None => 0;
    if |parts| >= 3 {
      RequestLineIs(lines[0], parts);
      x := Reading(head, lines[0], lines[1..], [], parts[0], parts[1], parts[2], hs, n);
    } else {
      x := Reading(head, lines[0], lines[1..], [], [], [], [], hs, n);
    }
    forall v, t, w | IsRequestLine(x.line, v, t, w) ensures |parts| >= 3 && parts[1] == t && parts[2] == w {
      LineSplits(x.line, v, t, w);
    }
  }

  /** What stands before the first question mark, and behind it. */
  function Cut(target: Bytes): (Bytes, Bytes) {
    var i := IndexOf(target, 63);
    if i.Some? then (target[..i.value], target[i.value + 1..]) else (target, [])
  }

  lemma CutIs(target: Bytes)
    ensures var (raw, query) := Cut(target); 63 !in raw && ((target == raw && query == []) || target == raw + [63] + query)
  {
    var i := IndexOf(target, 63);
    if i.Some? {
      CutAt(target, 63, i.value);
    }
  }

  lemma CutOf(target: Bytes, raw: Bytes, query: Bytes)
    requires 63 !in raw && ((target == raw && query == []) || target == raw + [63] + query)
    ensures Cut(target).0 == raw
  {
    if target == raw {
      W.NoIndex(raw, 63);
    } else {
      W.IndexBehind(raw, 63, query);
    }
  }

  lemma TargetIsRead(target: Bytes, verb: Bytes, f: Fields, body: Bytes, utf8: Utf8)
    ensures match Finish(Head(verb, target, f), body, utf8)
            case Some(req) =>
              && req.verb == verb && req.headers == f.headers && req.body == body
              && TargetIs(target, req.path, req.query) && utf8(req.path)
            case None => !HasPath(target, utf8)
  {
    hide UrlDecode, DecodesTo, IndexOf;
    var (raw, query) := Cut(target);
    CutIs(target);
    match Finish(Head(verb, target, f), body, utf8)
    case Some(req) => DecodesIff(raw, req.path);
    case None =>
      forall path, q | TargetIs(target, path, q) ensures !utf8(path) {
        var other :| 63 !in other && DecodesTo(other, path) && ((target == other && q == []) || target == other + [63] + q);
        CutOf(target, other, q);
        DecodesIff(raw, path);
      }
  }

  /** Whatever a buffer holds, the answer has its cause in it: a request is just what the grammar
      makes of it, and a part of one or a refusal what is missing or wrong. */
  lemma EveryBufferIsRead(b: Bytes, maxBody: nat, utf8: Utf8) returns (x: Reading)
    ensures Verdict(b, maxBody, utf8, x, TryParse(b, maxBody, utf8))
  {
    hide HeadEnd, LinesOf, ReadHead, Finish, Understood, Malformed, Coded, TargetIs, HasPath, NoEndBefore, EndAt, W.Lines, G.OneLine;
    EndIs(b);
    match HeadEnd(b)
    case None =>
      x := Reading([], [], [], [], [], [], [], [], 0);
    case Some(h) =>
      var head, after := b[..h], b[h + 4..];
      BlankIs(b, h);
      LinesAre(head);
      var y := HeadIs(head, maxBody, utf8);
      x := y.(after := after);
      AfterIsFree(y, after, utf8);
      if h <= MAX_HEADER_BYTES && ReadHead(head, maxBody, utf8).Ok? {
        var hd := ReadHead(head, maxBody, utf8).value;
        var n := hd.fields.length;
        if |after| >= n {
          assert b[h + 4..h + 4 + n] == after[..n] && b[h + 4 + n..] == after[n..];
          assert after == after[..n] + after[n..];
          TargetIsRead(hd.target, hd.verb, hd.fields, after[..n], utf8);
        }
      }
  }

  lemma AfterIsFree(x: Reading, after: Bytes, utf8: Utf8)
    ensures Understood(x.(after := after), utf8) == Understood(x, utf8) && Malformed(x.(after := after), utf8) == Malformed(x, utf8)
  {
  }
}
