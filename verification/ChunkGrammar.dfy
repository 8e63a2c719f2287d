/** The grammar of chunked bodies that depot/src/client.rs, `read_chunked`, takes (section 7.1 of
    RFC 9112, and what is let pass besides), and what it makes of any stream by that grammar. */
module ChunkGrammar {
  import opened Common
  import opened ByteText
  import opened ChunkedCoding

  const BREAK: Bytes := [CR, LF]
  const LOW: Bytes := [48, 49, 50, 51, 52, 53, 54, 55, 56, 57, 97, 98, 99, 100, 101, 102]
  const HIGH: Bytes := [48, 49, 50, 51, 52, 53, 54, 55, 56, 57, 65, 66, 67, 68, 69, 70]

  // --- size lines -----------------------------------------------------------------------

  predicate Spaces(s: Bytes) {
    forall b :: b in s ==> b == 32 || 9 <= b <= 13
  }

  predicate IsDigit(b: byte, d: nat) {
    d < 16 && (b == LOW[d] || b == HIGH[d])
  }

  /** A number written in hexadecimal, in either case, with any zeros before it. */
  predicate Writes(s: Bytes, n: nat)
    decreases |s|
  {
    if s == [] then n == 0
    else IsDigit(s[|s| - 1], n % 16) && Writes(s[..|s| - 1], n / 16)
  }

  /** Spaces, a plus sign or none, digits, spaces, and what a semicolon begins. */
  ghost predicate SizeLine(line: Bytes, left: Bytes, sign: Bytes, digits: Bytes, right: Bytes, ext: Bytes, n: nat) {
    && line == left + (sign + digits) + right + ext
    && Spaces(left) && Spaces(right) && (sign == [] || sign == [43]) && (ext == [] || ext[0] == 59)
    && digits != [] && Writes(digits, n) && n <= USIZE_MAX
  }

  ghost predicate Says(line: Bytes, n: nat) {
    exists left, sign, digits, right, ext :: SizeLine(line, left, sign, digits, right, ext, n)
  }

  lemma DigitIff(b: byte, d: nat)
    ensures DigitOf(b) == Some(d) <==> IsDigit(b, d)
  {
  }

  lemma Parts(n: nat, high: nat, low: nat)
    requires low < 16
    ensures n == high * 16 + low <==> high == n / 16 && low == n % 16
  {
  }

  lemma {:induction false} WritesIff(s: Bytes, n: nat)
    ensures HexValue(s) == Some(n) <==> Writes(s, n)
    decreases |s|
  {
    hide DigitOf, IsDigit;
    if s != [] {
      var b, more := s[|s| - 1], s[..|s| - 1];
      WritesIff(more, n / 16);
      DigitIff(b, n % 16);
      if HexValue(more).Some? && DigitOf(b).Some? {
        Parts(n, HexValue(more).value, DigitOf(b).value);
      }
    }
  }

  lemma {:induction false} WritesDigits(s: Bytes, n: nat)
    requires Writes(s, n)
    ensures forall b :: b in s ==> !IsSpace(b) && b != 43 && b != 59
    decreases |s|
  {
    if s != [] {
      DigitIff(s[|s| - 1], n % 16);
      WritesDigits(s[..|s| - 1], n / 16);
      assert s == s[..|s| - 1] + [s[|s| - 1]];
    }
  }

  lemma {:induction false} BeforeIs(s: Bytes)
    ensures BeforeSemicolon(s) <= s && 59 !in BeforeSemicolon(s)
    ensures s[|BeforeSemicolon(s)|..] == [] || s[|BeforeSemicolon(s)|] == 59
  {
    if s != [] && s[0] != 59 {
      BeforeIs(s[1..]);
      var b := BeforeSemicolon(s[1..]);
      assert ([s[0]] + b)[..1] == [s[0]];
      assert s == [s[0]] + s[1..];
    }
  }

  lemma {:induction false} BeforeOf(a: Bytes, ext: Bytes)
    requires 59 !in a && (ext == [] || ext[0] == 59)
    ensures BeforeSemicolon(a + ext) == a
  {
    if a == [] {
      assert a + ext == ext;
    } else {
      assert (a + ext)[1..] == a[1..] + ext;
      BeforeOf(a[1..], ext);
    }
  }

  lemma {:induction false} TrimSplits(s: Bytes) returns (left: Bytes, right: Bytes)
    ensures s == left + Trim(s) + right && Spaces(left) && Spaces(right)
    decreases |s|
  {
    left, right := [], [];
    if s == [] {
    } else if IsSpace(s[0]) {
      left, right := TrimSplits(s[1..]);
      left := [s[0]] + left;
      assert s == [s[0]] + s[1..];
    } else if IsSpace(s[|s| - 1]) {
      left, right := TrimSplits(s[..|s| - 1]);
      right := right + [s[|s| - 1]];
      assert s == s[..|s| - 1] + [s[|s| - 1]];
    }
  }

  lemma {:induction false} TrimOf(left: Bytes, core: Bytes, right: Bytes)
    requires Spaces(left) && Spaces(right) && core != [] && !IsSpace(core[0]) && !IsSpace(core[|core| - 1])
    ensures Trim(left + core + right) == core
    decreases |left| + |right|
  {
    var s := left + core + right;
    if left != [] {
      assert left[0] in left && forall b :: b in left[1..] ==> b in left;
      assert s[0] == left[0] && s[1..] == left[1..] + core + right;
      TrimOf(left[1..], core, right);
    } else if right != [] {
      var less, last := right[..|right| - 1], right[|right| - 1];
      assert right == less + [last] && last in right;
      forall b | b in less ensures b in right && IsSpace(b) {
      }
      assert s[..|s| - 1] == left + core + less;
      assert s[|s| - 1] == last && s[0] == core[0];
      TrimOf(left, core, less);
    } else {
      assert s == core;
    }
  }

  lemma SaidIsRead(line: Bytes, n: nat)
    requires Says(line, n)
    ensures SizeOf(line) == Some(n)
  {
    hide HexValue, Trim, BeforeSemicolon, Writes;
    var left, sign, digits, right, ext :| SizeLine(line, left, sign, digits, right, ext, n);
    WritesDigits(digits, n);
    WritesIff(digits, n);
    var core := sign + digits;
    var before := left + core + right;
    assert digits[0] in digits && digits[|digits| - 1] in digits;
    assert core[|core| - 1] == digits[|digits| - 1] && (sign == [] ==> core == digits);
    assert 59 !in before;
    BeforeOf(before, ext);
    TrimOf(left, core, right);
    assert sign == [43] ==> core[1..] == digits;
  }

  lemma ReadIsSaid(line: Bytes, n: nat)
    requires SizeOf(line) == Some(n)
    ensures Says(line, n)
  {
    hide HexValue, Trim, BeforeSemicolon, Writes;
    var before := BeforeSemicolon(line);
    BeforeIs(line);
    var core := Trim(before);
    var left, right := TrimSplits(before);
    var sign := if core != [] && core[0] == 43 then [43] else [];
    var digits := core[|sign|..];
    assert core == sign + digits;
    WritesIff(digits, n);
    assert line == before + line[|before|..];
    assert SizeLine(line, left, sign, digits, right, line[|before|..], n);
  }

  /** A line is read as a size exactly if the grammar has it say so. */
  lemma SizeIff(line: Bytes, n: nat)
    ensures SizeOf(line) == Some(n) <==> Says(line, n)
  {
    hide SizeOf, Says;
    if Says(line, n) {
      SaidIsRead(line, n);
    }
    if SizeOf(line) == Some(n) {
      ReadIsSaid(line, n);
    }
  }

  // --- lines and trailers ---------------------------------------------------------------

  /** No line break within. */
  predicate OneLine(s: Bytes) {
    forall i :: 0 < i < |s| ==> s[i - 1] != CR || s[i] != LF
  }

  lemma {:induction false} BreakIs(t: Bytes)
    ensures Crlf(t).None? <==> OneLine(t)
    ensures Crlf(t).Some? ==> var p := Crlf(t).value;
                              OneLine(t[..p]) && p + 2 <= |t| && t == t[..p] + BREAK + t[p + 2..]
  {
    hide OneLine;
    if |t| < 2 {
      ShortIsOne(t);
    } else if t[0] == CR && t[1] == LF {
      ShortIsOne(t[..0]);
      HasBreak(t);
    } else {
      BreakIs(t[1..]);
      OneLineNext(t);
      if Crlf(t).Some? {
        var p := Crlf(t[1..]).value;
        assert t[1..][..p] == t[..p + 1][1..];
        assert t[1..][p + 2..] == t[p + 3..];
        OneLineNext(t[..p + 1]);
      }
    }
  }

  lemma ShortIsOne(t: Bytes)
    requires |t| < 2
    ensures OneLine(t)
  {
  }

  lemma HasBreak(t: Bytes)
    requires |t| >= 2 && t[0] == CR && t[1] == LF
    ensures !OneLine(t)
  {
    assert t[1] == LF;
  }

  lemma OneLineNext(t: Bytes)
    requires t != []
    ensures OneLine(t) <==> OneLine(t[1..]) && (|t| >= 2 ==> t[0] != CR || t[1] != LF)
  {
    var u := t[1..];
    if OneLine(t) {
      assert |t| >= 2 ==> t[1 - 1] != CR || t[1] != LF;
      forall i | 0 < i < |u| ensures u[i - 1] != CR || u[i] != LF {
        assert u[i - 1] == t[i] && u[i] == t[i + 1];
      }
    }
    if OneLine(u) && (|t| >= 2 ==> t[0] != CR || t[1] != LF) {
      forall i | 0 < i < |t| ensures t[i - 1] != CR || t[i] != LF {
        if i > 1 {
          assert u[i - 2] == t[i - 1] && u[i - 1] == t[i];
        }
      }
    }
  }

  lemma {:induction false} BreakOf(line: Bytes, rest: Bytes)
    requires OneLine(line)
    ensures Crlf(line + BREAK + rest) == Some(|line|)
  {
    var t := line + BREAK + rest;
    if line != [] {
      assert t[0] == line[0] && t[1] == (if |line| > 1 then line[1] else CR);
      assert t[1..] == line[1..] + BREAK + rest;
      BreakOf(line[1..], rest);
    }
  }

  predicate IsTrailer(l: Bytes) {
    l != [] && OneLine(l)
  }

  function TrailerText(ls: seq<Bytes>): Bytes {
    if ls == [] then BREAK else ls[0] + BREAK + TrailerText(ls[1..])
  }

  predicate Trailers(t: Bytes, ls: seq<Bytes>) {
    TrailerText(ls) <= t && forall l :: l in ls ==> IsTrailer(l)
  }

  /** Lines up to a blank one. */
  ghost predicate Ended(t: Bytes) {
    exists ls :: Trailers(t, ls)
  }

  lemma {:induction false} EndIsFound(t: Bytes, ls: seq<Bytes>)
    requires Trailers(t, ls)
    ensures TrailersEnd(t)
    decreases |ls|
  {
    if ls == [] {
      assert t == [] + BREAK + t[2..];
      BreakOf([], t[2..]);
    } else {
      var l, n := ls[0], |ls[0]|;
      assert l in ls && forall k :: k in ls[1..] ==> k in ls;
      assert t[..n] == l && t[n..n + 2] == BREAK;
      assert t == l + BREAK + t[n + 2..];
      BreakOf(l, t[n + 2..]);
      assert TrailerText(ls)[n + 2..] == TrailerText(ls[1..]);
      assert TrailerText(ls[1..]) <= t[n + 2..];
      EndIsFound(t[n + 2..], ls[1..]);
    }
  }

  lemma {:induction false} FoundIsEnd(t: Bytes) returns (ls: seq<Bytes>)
    requires TrailersEnd(t)
    ensures Trailers(t, ls)
    decreases |t|
  {
    BreakIs(t);
    var p := Crlf(t).value;
    if p == 0 {
      ls := [];
      assert t[..0] + BREAK == BREAK;
    } else {
      var more := FoundIsEnd(t[p + 2..]);
      ls := [t[..p]] + more;
      assert ls[1..] == more;
      assert TrailerText(ls) == t[..p] + BREAK + TrailerText(more);
      assert t[p + 2..][..|TrailerText(more)|] == TrailerText(more);
    }
  }

  lemma EndedIff(t: Bytes)
    ensures TrailersEnd(t) <==> Ended(t)
  {
    if Ended(t) {
      var ls :| Trailers(t, ls);
      EndIsFound(t, ls);
    }
    if TrailersEnd(t) {
      var ls := FoundIsEnd(t);
    }
  }

  // --- bodies ---------------------------------------------------------------------------

  /** A chunk: its size line, its data, and the two bytes behind it that nobody looks at. */
  datatype Piece = Piece(line: Bytes, data: Bytes, gap: Bytes)

  ghost predicate Proper(p: Piece) {
    OneLine(p.line) && p.data != [] && Says(p.line, |p.data|) && |p.gap| == 2
  }

  function Text(p: Piece): Bytes {
    p.line + BREAK + (p.data + p.gap)
  }

  function Texts(ps: seq<Piece>): Bytes {
    if ps == [] then [] else Text(ps[0]) + Texts(ps[1..])
  }

  function Held(ps: seq<Piece>): Bytes {
    if ps == [] then [] else ps[0].data + Held(ps[1..])
  }

  lemma PieceIsRead(p: Piece, u: Bytes, out: Bytes, max: nat)
    requires Proper(p)
    ensures Decode(Text(p) + u, out, max) == if |out| + |p.data| > max then Err(TooLarge) else Decode(u, out + p.data, max)
  {
    hide Decode, Crlf, SizeOf, Says, OneLine, LongLine;
    var t, k, n := Text(p) + u, |p.line|, |p.data|;
    assert t == p.line + BREAK + (p.data + p.gap + u);
    BreakOf(p.line, p.data + p.gap + u);
    assert t[..k] == p.line;
    SizeIff(p.line, n);
    DecodeNext(t, out, max, k, Some(n));
    assert t[k + 2..] == p.data + p.gap + u;
    assert t[k + 2..k + 2 + n] == p.data && t[k + n + 4..] == u;
  }

  lemma PiecesStep(p: Piece, more: seq<Piece>, u: Bytes, out: Bytes)
    ensures Texts([p] + more) + u == Text(p) + (Texts(more) + u)
    ensures out + Held([p] + more) == out + p.data + Held(more) && |Held([p] + more)| == |p.data| + |Held(more)|
  {
    hide Text;
    assert ([p] + more)[1..] == more;
    Regroup(Text(p), Texts(more), u);
    Regroup(out, p.data, Held(more));
  }

  lemma NoPieces(u: Bytes, out: Bytes)
    ensures Texts([]) + u == u && out + Held([]) == out
  {
  }

  /** Chunks that fit are read as what they hold, whatever comes behind them. */
  lemma {:induction false} PiecesAreRead(ps: seq<Piece>, u: Bytes, out: Bytes, max: nat)
    requires (forall p :: p in ps ==> Proper(p)) && (ps == [] || |out| + |Held(ps)| <= max)
    ensures Decode(Texts(ps) + u, out, max) == Decode(u, out + Held(ps), max)
    decreases |ps|
  {
    hide *;
    if ps == [] {
      NoPieces(u, out);
    } else {
      var p, more := ps[0], ps[1..];
      assert ps == [p] + more;
      assert p in ps && forall q :: q in more ==> q in ps;
      PiecesStep(p, more, u, out);
      PieceIsRead(p, Texts(more) + u, out, max);
      PiecesAreRead(more, u, out + p.data, max);
    }
  }

  /** A line and what follows its break. */
  predicate Begins(u: Bytes, line: Bytes, v: Bytes) {
    OneLine(line) && u == line + BREAK + v
  }

  /** A whole chunk that fits comes next. */
  ghost predicate PieceNext(u: Bytes, had: nat, max: nat) {
    exists line, v, n: nat :: Begins(u, line, v) && Says(line, n) && n > 0 && had + n <= max && |v| >= n + 2
  }

  /** What to make of a stream at whose beginning no whole chunk fits. */
  ghost predicate Verdict(u: Bytes, had: Bytes, max: nat, r: Result<Bytes, Failure>) {
    match r
    case Ok(body) => body == had && exists line, v :: Begins(u, line, v) && Says(line, 0) && Ended(v)
    case Err(BadSize) => exists line, v :: Begins(u, line, v) && forall n: nat :: !Says(line, n)
    case Err(TooLarge) => exists line, v, n: nat :: Begins(u, line, v) && Says(line, n) && n > 0 && |had| + n > max
    case Err(BadLine) => OneLine(u) && |u| > 1024
    case Err(Cut) =>
      || (OneLine(u) && |u| <= 1024)
      || (exists line, v :: Begins(u, line, v) && Says(line, 0) && !Ended(v))
      || (exists line, v, n: nat :: Begins(u, line, v) && Says(line, n) && n > 0 && |had| + n <= max && |v| < n + 2)
  }

  lemma VerdictIs(u: Bytes, had: Bytes, max: nat)
    requires !PieceNext(u, |had|, max)
    ensures Verdict(u, had, max, Decode(u, had, max))
  {
    hide Crlf, SizeOf, Says, OneLine, LongLine, Ended, TrailersEnd;
    BreakIs(u);
    if Crlf(u).Some? {
      var p := Crlf(u).value;
      var line, v := u[..p], u[p + 2..];
      assert Begins(u, line, v);
      EndedIff(v);
      if SizeOf(line).Some? {
        SizeIff(line, SizeOf(line).value);
      } else {
        forall n: nat ensures !Says(line, n) {
          SizeIff(line, n);
        }
      }
    }
  }

  /** The first whole chunk that fits, and what is behind it. */
  lemma NextPiece(t: Bytes, had: nat, max: nat) returns (p: Piece, u: Bytes)
    requires PieceNext(t, had, max)
    ensures Proper(p) && t == Text(p) + u && had + |p.data| <= max && |u| < |t|
  {
    hide Says, OneLine;
    var line, v, n: nat :| Begins(t, line, v) && Says(line, n) && n > 0 && had + n <= max && |v| >= n + 2;
    p, u := Piece(line, v[..n], v[n..n + 2]), v[n + 2..];
    assert v == p.data + p.gap + u;
    Regroup(line + BREAK, p.data + p.gap, u);
  }

  /** Any stream is chunks that fit, and something at whose beginning none does: and what is behind
      them decides what it is read as. */
  lemma {:induction false} EveryStreamIsRead(t: Bytes, out: Bytes, max: nat) returns (ps: seq<Piece>, u: Bytes)
    ensures t == Texts(ps) + u && (forall p :: p in ps ==> Proper(p)) && (ps == [] || |out| + |Held(ps)| <= max)
    ensures !PieceNext(u, |out| + |Held(ps)|, max)
    ensures Verdict(u, out + Held(ps), max, Decode(t, out, max))
    decreases |t|
  {
    hide *;
    if PieceNext(t, |out|, max) {
      var p, v := NextPiece(t, |out|, max);
      var more: seq<Piece>;
      more, u := EveryStreamIsRead(v, out + p.data, max);
      ps := [p] + more;
      PiecesStep(p, more, u, out);
      PieceIsRead(p, v, out, max);
      NoPieces(u, out + p.data);
    } else {
      ps, u := [], t;
      NoPieces(t, out);
      VerdictIs(t, out, max);
    }
  }
}
