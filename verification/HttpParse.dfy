/** backchannel/src/httpd.rs: `try_parse`, the request parser every app of the suite runs over a
    growing buffer (section 2.1 of RFC 9112). */
module HttpParse {
  import opened Common
  import opened ByteText
  import opened ChunkedCoding

  const MAX_HEADER_BYTES := 16 * 1024
  const MAX_TARGET_BYTES := 4 * 1024
  const SPACE: byte := 32
  const COLON: byte := 58
  const QUESTION: byte := 63
  const PERCENT: byte := 37
  const PLUS: byte := 43

  datatype Request = Request(verb: Bytes, path: Bytes, query: Bytes, headers: seq<(Bytes, Bytes)>, body: Bytes)

  datatype Parse = Complete(req: Request, left: Bytes) | Partial(inBody: bool) | Bad(code: nat)

  /** Which bytes are UTF-8. */
  type Utf8 = Bytes -> bool

  // --- the head -------------------------------------------------------------------------

  /** `find_crlfcrlf`. */
  function HeadEnd(b: Bytes): (r: Option<nat>)
    ensures r.Some? ==> r.value + 4 <= |b|
  {
    if |b| < 4 then None
    else if b[0] == CR && b[1] == LF && b[2] == CR && b[3] == LF then Some(0)
    else
      match HeadEnd(b[1..])
      case Some(h) => Some(h + 1)
      case None => None
  }

  function LinesOf(s: Bytes): (r: seq<Bytes>)
    ensures r != []
    decreases |s|
  {
    match Crlf(s)
    case None => [s]
    case Some(p) => [s[..p]] + LinesOf(s[p + 2..])
  }

  function LowerByte(b: byte): byte {
    if 65 <= b <= 90 then b + 32 else b
  }

  function Lower(s: Bytes): Bytes {
    seq(|s|, i requires 0 <= i < |s| => LowerByte(s[i]))
  }

  predicate IsDigit(b: byte) {
    48 <= b <= 57
  }

  function Decimal(s: Bytes): Option<nat> {
    if s == [] then Some(0)
    else
      match Decimal(s[..|s| - 1])
      case None => None
      case Some(n) => if IsDigit(s[|s| - 1]) then Some(n * 10 + (s[|s| - 1] - 48) as nat) else None
  }

  /** `parse::<usize>`. */
  function UsizeOf(s: Bytes): Option<nat> {
    var digits := if s != [] && s[0] == PLUS then s[1..] else s;
    match Decimal(digits)
    case None => None
    case Some(n) => if digits != [] && n <= USIZE_MAX then Some(n) else None
  }

  datatype Fields = Fields(headers: seq<(Bytes, Bytes)>, length: nat, te: bool)

  const CONTENT_LENGTH: Bytes := [99, 111, 110, 116, 101, 110, 116, 45, 108, 101, 110, 103, 116, 104]
  const TRANSFER_ENCODING: Bytes := [116, 114, 97, 110, 115, 102, 101, 114, 45, 101, 110, 99, 111, 100, 105, 110, 103]
  const HTTP_1: Bytes := [72, 84, 84, 80, 47, 49, 46]

  /** One header line; None for a length that is no number. A line without a colon is skipped. */
  function ReadField(line: Bytes, f: Fields): Option<Fields> {
    match IndexOf(line, COLON)
    case None => Some(f)
    case Some(i) =>
      var name, value := Lower(Trim(line[..i])), Trim(line[i + 1..]);
      if name == CONTENT_LENGTH && UsizeOf(value).None? then None
      else
        Some(Fields(f.headers + [(name, value)],
                    if name == CONTENT_LENGTH then UsizeOf(value).value else f.length,
                    f.te || name == TRANSFER_ENCODING))
  }

  function ReadFields(lines: seq<Bytes>, f: Fields): Option<Fields>
    decreases |lines|
  {
    if lines == [] then Some(f)
    else
      match ReadField(lines[0], f)
      case None => None
      case Some(g) => ReadFields(lines[1..], g)
  }

  datatype Head = Head(verb: Bytes, target: Bytes, fields: Fields)

  /** The head of a request, or the status to refuse it with. */
  function ReadHead(head: Bytes, maxBody: nat, utf8: Utf8): (r: Result<Head, nat>)
    ensures r.Err? ==> r.error in {400, 413, 501}
  {
    var lines := LinesOf(head);
    var parts := SplitOn(lines[0], SPACE);
    if !utf8(head) || |parts| < 3 || !(HTTP_1 <= parts[2]) || |parts[1]| > MAX_TARGET_BYTES then Err(400)
    else
      match ReadFields(lines[1..], Fields([], 0, false))
      case None => Err(400)
      case Some(f) =>
        if f.te then Err(501)
        else if f.length > maxBody then Err(413)
        else Ok(Head(parts[0], parts[1], f))
  }

  function UrlDecode(s: Bytes): Option<Bytes> {
    if s == [] then Some([])
    else if s[0] == PERCENT then
      if |s| < 3 || DigitOf(s[1]).None? || DigitOf(s[2]).None? then None
      else
        match UrlDecode(s[3..])
        case None => None
        case Some(rest) => Some([(DigitOf(s[1]).value * 16 + DigitOf(s[2]).value) as byte] + rest)
    else
      match UrlDecode(s[1..])
      case None => None
      case Some(rest) => Some([if s[0] == PLUS then SPACE else s[0]] + rest)
  }

  /** The request, once its body is there; None when the path does not decode. */
  function Finish(head: Head, body: Bytes, utf8: Utf8): Option<Request> {
    var cut := IndexOf(head.target, QUESTION);
    var raw, query := if cut.Some? then head.target[..cut.value] else head.target, if cut.Some? then head.target[cut.value + 1..] else [];
    match UrlDecode(raw)
    case None => None
    case Some(path) => if utf8(path) then Some(Request(head.verb, path, query, head.fields.headers, body)) else None
  }

  /** What a buffer holds: a request and what is left, part of one, or something to refuse. */
  function TryParse(b: Bytes, maxBody: nat, utf8: Utf8): Parse {
    match HeadEnd(b)
    case None => if |b| > MAX_HEADER_BYTES then Bad(431) else Partial(false)
    case Some(h) =>
      if h > MAX_HEADER_BYTES then Bad(431)
      else
        match ReadHead(b[..h], maxBody, utf8)
        case Err(code) => Bad(code)
        case Ok(head) =>
          var end := h + 4 + head.fields.length;
          if |b| < end then Partial(true)
          else
            match Finish(head, b[h + 4..end], utf8)
            case None => Bad(400)
            case Some(req) => Complete(req, b[end..])
  }

  // --- the code -------------------------------------------------------------------------

  /** The loop over the header lines. */
  method ReadLines(lines: seq<Bytes>) returns (f: Option<Fields>)
    ensures f == ReadFields(lines, Fields([], 0, false))
  {
    hide IndexOf, UsizeOf, Trim, Lower;
    var headers: seq<(Bytes, Bytes)>, length: nat, te := [], 0, false;
    assert lines[0..] == lines;
    for i := 0 to |lines|
      invariant ReadFields(lines[i..], Fields(headers, length, te)) == ReadFields(lines, Fields([], 0, false))
    {
      var line := lines[i];
      assert lines[i..][0] == line && lines[i..][1..] == lines[i + 1..];
      var colon := IndexOf(line, COLON);
      if colon.Some? {
        var name, value := Lower(Trim(line[..colon.value])), Trim(line[colon.value + 1..]);
        if name == CONTENT_LENGTH {
          var n := UsizeOf(value);
          if n.None? {
            return None;
          }
          length := n.value;
        }
        if name == TRANSFER_ENCODING {
          te := true;
        }
        headers := headers + [(name, value)];
      }
    }
    return Some(Fields(headers, length, te));
  }

  /** `url_decode`. */
  method Decode(s: Bytes) returns (r: Option<Bytes>)
    ensures r == UrlDecode(s)
  {
    hide UrlDecode, Prefixed;
    var out: Bytes, i: nat := [], 0;
    DecodeEnds(s, UrlDecode(s), []);
    while i < |s|
      invariant i <= |s|
      invariant UrlDecode(s) == Prefixed(out, UrlDecode(s[i..]))
    {
      DecodeNext(s, i, out);
      if s[i] == PERCENT {
        if i + 2 >= |s| {
          return None;
        }
        var hi, lo := DigitOf(s[i + 1]), DigitOf(s[i + 2]);
        if hi.None? || lo.None? {
          return None;
        }
        out := out + [(hi.value * 16 + lo.value) as byte];
        i := i + 3;
      } else {
        out := out + [if s[i] == PLUS then SPACE else s[i]];
        i := i + 1;
      }
    }
    DecodeEnds(s, None, out);
    return Some(out);
  }

  lemma DecodeEnds(s: Bytes, o: Option<Bytes>, out: Bytes)
    ensures s[0..] == s && Prefixed([], o) == o
    ensures Prefixed(out, UrlDecode(s[|s|..])) == Some(out)
  {
    assert out + [] == out;
    if o.Some? {
      assert [] + o.value == o.value;
    }
  }

  lemma DecodeNext(s: Bytes, i: nat, out: Bytes)
    requires i < |s|
    ensures Prefixed(out, UrlDecode(s[i..]))
         == if s[i] == PERCENT then
              if i + 2 >= |s| || DigitOf(s[i + 1]).None? || DigitOf(s[i + 2]).None? then None
              else Prefixed(out + [(DigitOf(s[i + 1]).value * 16 + DigitOf(s[i + 2]).value) as byte], UrlDecode(s[i + 3..]))
            else Prefixed(out + [if s[i] == PLUS then SPACE else s[i]], UrlDecode(s[i + 1..]))
  {
    var t := s[i..];
    assert t[0] == s[i] && t[1..] == s[i + 1..];
    if i + 2 < |s| {
      assert t[1] == s[i + 1] && t[2] == s[i + 2] && t[3..] == s[i + 3..];
    }
    if s[i] == PERCENT {
      if |t| >= 3 && DigitOf(t[1]).Some? && DigitOf(t[2]).Some? {
        PrefixedTwice(out, [(DigitOf(t[1]).value * 16 + DigitOf(t[2]).value) as byte], UrlDecode(s[i + 3..]));
      }
    } else {
      PrefixedTwice(out, [if s[i] == PLUS then SPACE else s[i]], UrlDecode(s[i + 1..]));
    }
  }

  /** `try_parse` on its buffer. A request takes its bytes off the front; with part of one the
      buffer stays as it is. */
  method ParseBuffer(rbuf: Bytes, maxBody: nat, utf8: Utf8) returns (p: Parse, rbuf': Bytes)
    ensures p == TryParse(rbuf, maxBody, utf8)
    ensures p.Complete? ==> rbuf' == p.left && |rbuf'| < |rbuf|
    ensures p.Partial? ==> rbuf' == rbuf
  {
    hide HeadEnd, LinesOf, SplitOn, UrlDecode, IndexOf;
    var end := HeadEnd(rbuf);
    if end.None? {
      return if |rbuf| > MAX_HEADER_BYTES then Bad(431) else Partial(false), rbuf;
    }
    var headEnd := end.value;
    if headEnd > MAX_HEADER_BYTES {
      return Bad(431), rbuf;
    }
    var head := rbuf[..headEnd];
    if !utf8(head) {
      return Bad(400), rbuf;
    }
    var lines := LinesOf(head);
    var parts := SplitOn(lines[0], SPACE);
    if |parts| < 3 {
      return Bad(400), rbuf;
    }
    var target := parts[1];
    if !(HTTP_1 <= parts[2]) || |target| > MAX_TARGET_BYTES {
      return Bad(400), rbuf;
    }
    var fields := ReadLines(lines[1..]);
    if fields.None? {
      return Bad(400), rbuf;
    }
    if fields.value.te {
      return Bad(501), rbuf;
    }
    var length := fields.value.length;
    if length > maxBody {
      return Bad(413), rbuf;
    }
    var bodyStart := headEnd + 4;
    if |rbuf| < bodyStart + length {
      return Partial(true), rbuf;
    }
    var body := rbuf[bodyStart..bodyStart + length];
    rbuf' := rbuf[bodyStart + length..];
    var cut := IndexOf(target, QUESTION);
    var path := Decode(if cut.Some? then target[..cut.value] else target);
    if path.None? || !utf8(path.value) {
      return Bad(400), rbuf';
    }
    var query := if cut.Some? then target[cut.value + 1..] else [];
    return Complete(Request(parts[0], path.value, query, fields.value.headers, body), rbuf'), rbuf';
  }
}
