/** Chunked transfer coding (section 7.1 of RFC 9112): the writer of backchannel/src/httpd.rs,
    `chunk_into`, and the reader of depot/src/client.rs, `read_chunked`. */
module ChunkedCoding {
  import opened Common
  import opened ByteText

  const CR: byte := 13
  const LF: byte := 10
  const LINE_GUARD := 1024

  // --- lines and sizes ------------------------------------------------------------------

  /** `windows(2).position(== CRLF)`. */
  function Crlf(t: Bytes): (r: Option<nat>)
    ensures r.Some? ==> r.value + 2 <= |t| && t[r.value] == CR && t[r.value + 1] == LF
  {
    if |t| < 2 then None
    else if t[0] == CR && t[1] == LF then Some(0)
    else
      match Crlf(t[1..])
      case Some(p) => Some(p + 1)
      case None => None
  }

  predicate IsSpace(b: byte) {
    b == 32 || 9 <= b <= 13
  }

  function Trim(s: Bytes): Bytes {
    if s == [] then s
    else if IsSpace(s[0]) then Trim(s[1..])
    else if IsSpace(s[|s| - 1]) then Trim(s[..|s| - 1])
    else s
  }

  /** What stands before the first semicolon. */
  function BeforeSemicolon(s: Bytes): Bytes {
    if s == [] || s[0] == 59 then [] else [s[0]] + BeforeSemicolon(s[1..])
  }

  function HexValue(s: Bytes): Option<nat> {
    if s == [] then Some(0)
    else
      var high, low := HexValue(s[..|s| - 1]), DigitOf(s[|s| - 1]);
      if high.Some? && low.Some? then Some(high.value * 16 + low.value) else None
  }

  /** `usize::from_str_radix(_, 16)`, which takes a plus sign. */
  function FromHex(s: Bytes): Option<nat> {
    var digits := if s != [] && s[0] == 43 then s[1..] else s;
    if digits == [] then None
    else
      match HexValue(digits)
      case Some(n) => if n <= USIZE_MAX then Some(n) else None
      case None => None
  }

  function SizeOf(line: Bytes): Option<nat> {
    FromHex(Trim(BeforeSemicolon(line)))
  }

  // --- writing --------------------------------------------------------------------------

  function HexDigit(d: nat): (b: byte)
    requires d < 16
    ensures DigitOf(b) == Some(d)
  {
    if d < 10 then (48 + d) as byte else (87 + d) as byte
  }

  /** `{:x}`. */
  function Hex(n: nat): (s: Bytes)
    ensures s != []
  {
    if n < 16 then [HexDigit(n)] else Hex(n / 16) + [HexDigit(n % 16)]
  }

  function Chunk(data: Bytes): Bytes {
    Hex(|data|) + [CR, LF] + data + [CR, LF]
  }

  function Chunks(list: seq<Bytes>): Bytes {
    if list == [] then [] else Chunk(list[0]) + Chunks(list[1..])
  }

  const LAST: Bytes := [48, CR, LF, CR, LF]

  // --- what a stream says ---------------------------------------------------------------

  datatype Failure = Cut | BadLine | BadSize | TooLarge

  /** Whether the trailer lines end with a blank one. */
  predicate TrailersEnd(t: Bytes)
    decreases |t|
  {
    match Crlf(t)
    case None => false
    case Some(p) => p == 0 || TrailersEnd(t[p + 2..])
  }

  /** The body a whole stream holds, after `out`. */
  function Decode(t: Bytes, out: Bytes, max: nat): Result<Bytes, Failure>
    decreases |t|
  {
    match Crlf(t)
    case None => Err(if |t| > LINE_GUARD then BadLine else Cut)
    case Some(p) =>
      match SizeOf(t[..p])
      case None => Err(BadSize)
      case Some(n) =>
        if n == 0 then if TrailersEnd(t[p + 2..]) then Ok(out) else Err(Cut)
        else if |out| + n > max then Err(TooLarge)
        else if |t| < p + n + 4 then Err(Cut)
        else Decode(t[p + n + 4..], out + t[p + 2..p + 2 + n], max)
  }

  /** A size line that begins its CRLF past the guard, or past another limit. What becomes of it
      may depend on how the bytes arrive. */
  predicate LongLine(t: Bytes, out: Bytes, max: nat, limit: nat := LINE_GUARD)
    decreases |t|
  {
    match Crlf(t)
    case None => false
    case Some(p) =>
      p >= limit ||
      match SizeOf(t[..p])
      case None => false
      case Some(n) =>
        n > 0 && |out| + n <= max && |t| >= p + n + 4 && LongLine(t[p + n + 4..], out + t[p + 2..p + 2 + n], max, limit)
  }

  lemma {:induction false} CrlfStays(a: Bytes, b: Bytes)
    ensures Crlf(a).Some? ==> Crlf(a + b) == Crlf(a)
  {
    if |a| >= 2 {
      assert (a + b)[1..] == a[1..] + b;
      CrlfStays(a[1..], b);
    }
  }

  /** A CRLF that more bytes bring to light begins at the last byte at the earliest. */
  lemma {:induction false} CrlfComes(a: Bytes, b: Bytes)
    requires Crlf(a).None? && Crlf(a + b).Some?
    ensures Crlf(a + b).value + 1 >= |a|
  {
    if |a| >= 2 {
      assert (a + b)[1..] == a[1..] + b;
      CrlfComes(a[1..], b);
    }
  }

  // --- writing and reading back ---------------------------------------------------------

  lemma {:induction false} HexReadsBack(n: nat)
    ensures HexValue(Hex(n)) == Some(n)
    ensures forall b :: b in Hex(n) ==> DigitOf(b).Some?
  {
    var s := Hex(n);
    if n < 16 {
      assert s[..|s| - 1] == [];
    } else {
      HexReadsBack(n / 16);
      assert s[..|s| - 1] == Hex(n / 16) && s[|s| - 1] == HexDigit(n % 16);
    }
  }

  lemma {:induction false} NoSemicolon(s: Bytes)
    requires forall b :: b in s ==> DigitOf(b).Some?
    ensures BeforeSemicolon(s) == s
  {
    if s != [] {
      assert s[0] in s;
      NoSemicolon(s[1..]);
    }
  }

  lemma SizeReadsBack(n: nat)
    requires n <= USIZE_MAX
    ensures SizeOf(Hex(n)) == Some(n)
  {
    hide HexValue, Hex, BeforeSemicolon, DigitOf;
    var s := Hex(n);
    HexReadsBack(n);
    NoSemicolon(s);
    assert s[0] in s && s[|s| - 1] in s;
    DigitIsPlain(s[0]);
    DigitIsPlain(s[|s| - 1]);
    assert Trim(s) == s;
  }

  lemma DigitIsPlain(b: byte)
    requires DigitOf(b).Some?
    ensures !IsSpace(b) && b != 43 && b != 59
  {
  }

  lemma {:induction false} CrlfAfter(s: Bytes, t: Bytes)
    requires forall b :: b in s ==> DigitOf(b).Some?
    ensures Crlf(s + [CR, LF] + t) == Some(|s|)
  {
    var u := s + [CR, LF] + t;
    if s != [] {
      assert u[0] == s[0] && s[0] in s;
      assert u[1..] == s[1..] + [CR, LF] + t;
      CrlfAfter(s[1..], t);
    }
  }

  function Pow16(k: nat): nat {
    if k == 0 then 1 else 16 * Pow16(k - 1)
  }

  lemma {:induction false} HexLength(n: nat, k: nat)
    requires n < 16 * Pow16(k)
    ensures |Hex(n)| <= k + 1
  {
    if n >= 16 {
      HexLength(n / 16, k - 1);
    }
  }

  lemma HexIsShort(n: nat)
    requires n <= USIZE_MAX
    ensures |Hex(n)| <= 8 && |Hex(n)| < LINE_GUARD
  {
    assert Pow16(3) == 0x1000;
    assert Pow16(5) == 0x10_0000;
    assert Pow16(7) == 0x1000_0000;
    HexLength(n, 7);
  }

  /** One size line of a stream, and what follows from it. */
  lemma DecodeNext(t: Bytes, out: Bytes, max: nat, p: nat, size: Option<nat>)
    requires Crlf(t) == Some(p) && SizeOf(t[..p]) == size
    ensures size == None ==> Decode(t, out, max) == Err(BadSize)
    ensures size == Some(0) ==> Decode(t, out, max) == if TrailersEnd(t[p + 2..]) then Ok(out) else Err(Cut)
    ensures size.Some? && size.value > 0 ==>
              Decode(t, out, max)
              == if |out| + size.value > max then Err(TooLarge)
                 else if |t| < p + size.value + 4 then Err(Cut)
                 else Decode(t[p + size.value + 4..], out + t[p + 2..p + 2 + size.value], max)
    ensures LongLine(t, out, max)
       <==> p >= LINE_GUARD
            || (size.Some? && size.value > 0 && |out| + size.value <= max && |t| >= p + size.value + 4
                && LongLine(t[p + size.value + 4..], out + t[p + 2..p + 2 + size.value], max))
  {
    hide Crlf, SizeOf, TrailersEnd;
  }

  lemma ChunkReads(data: Bytes, t: Bytes, out: Bytes, max: nat)
    requires 0 < |data| <= USIZE_MAX
    ensures Decode(Chunk(data) + t, out, max) == if |out| + |data| > max then Err(TooLarge) else Decode(t, out + data, max)
    ensures LongLine(Chunk(data) + t, out, max) <==> |out| + |data| <= max && LongLine(t, out + data, max)
  {
    hide *;
    var h := Hex(|data|);
    HexReadsBack(|data|);
    HexIsShort(|data|);
    SizeReadsBack(|data|);
    ChunkIs(data, t);
    CrlfAfter(h, data + [CR, LF] + t);
    Slices(h, data, t);
    DecodeNext(Chunk(data) + t, out, max, |h|, Some(|data|));
  }

  lemma ChunkIs(data: Bytes, t: Bytes)
    ensures Chunk(data) + t == Hex(|data|) + [CR, LF] + (data + [CR, LF] + t)
  {
    hide Hex;
    Regroup(Hex(|data|) + [CR, LF] + data, [CR, LF], t);
    Regroup(Hex(|data|) + [CR, LF], data, [CR, LF] + t);
    Regroup(data, [CR, LF], t);
  }

  lemma Slices(h: Bytes, data: Bytes, t: Bytes)
    ensures var s := h + [CR, LF] + (data + [CR, LF] + t);
            && |s| == |h| + 2 + |data| + 2 + |t| && s[..|h|] == h
            && s[|h| + 2..|h| + 2 + |data|] == data && s[|h| + |data| + 4..] == t
  {
    var s, u := h + [CR, LF] + (data + [CR, LF] + t), data + [CR, LF] + t;
    assert s[|h| + 2..] == u;
    assert u[..|data|] == data && u[|data| + 2..] == t;
    assert s[|h| + 2..|h| + 2 + |data|] == u[..|data|];
    assert s[|h| + |data| + 4..] == u[|data| + 2..];
  }

  lemma LastReads(t: Bytes, out: Bytes, max: nat)
    ensures Decode(LAST + t, out, max) == Ok(out) && !LongLine(LAST + t, out, max)
  {
    var s := LAST + t;
    assert s[..1] == [48];
    assert [48 as byte][..0] == [];
    assert HexValue([48]) == Some(0);
    assert Trim([48]) == [48];
    assert BeforeSemicolon([48]) == [48] by {
      assert [48 as byte][1..] == [];
    }
    assert SizeOf([48]) == Some(0);
    assert s[1..][0] == CR && s[1..][1] == LF;
    assert Crlf(s) == Some(1);
    assert s[3..][0] == CR && s[3..][1] == LF;
    assert TrailersEnd(s[3..]);
  }

  /** Reading undoes writing: chunks that together fit are put back together, and chunks that
      do not are refused, whatever comes after the last one. */
  lemma {:induction false} DecodeUndoesChunks(list: seq<Bytes>, rest: Bytes, out: Bytes, max: nat)
    requires forall c :: c in list ==> 0 < |c| <= USIZE_MAX
    ensures |out| + |Flat(list)| <= max || list == [] ==> Decode(Chunks(list) + LAST + rest, out, max) == Ok(out + Flat(list))
    ensures |out| + |Flat(list)| > max && list != [] ==> Decode(Chunks(list) + LAST + rest, out, max) == Err(TooLarge)
  {
    hide Decode, Chunk, Chunks, Flat;
    if list == [] {
      NoChunksLeft(rest, out);
      LastReads(rest, out, max);
    } else {
      var c, more := list[0], list[1..];
      assert c in list && forall d :: d in more ==> d in list;
      ChunkThenMore(list, rest, out);
      ChunkReads(c, Chunks(more) + LAST + rest, out, max);
      if |out| + |c| <= max {
        DecodeUndoesChunks(more, rest, out + c, max);
      }
    }
  }

  lemma NoChunksLeft(rest: Bytes, out: Bytes)
    ensures Chunks([]) + LAST + rest == LAST + rest && out + Flat([]) == out
  {
  }

  lemma ChunkThenMore(list: seq<Bytes>, rest: Bytes, out: Bytes)
    requires list != []
    ensures Chunks(list) + LAST + rest == Chunk(list[0]) + (Chunks(list[1..]) + LAST + rest)
    ensures out + Flat(list) == out + list[0] + Flat(list[1..])
    ensures |Flat(list)| == |list[0]| + |Flat(list[1..])| && Flat([]) == []
  {
    hide Chunk;
    Regroup(Chunk(list[0]), Chunks(list[1..]), LAST);
    Regroup(Chunk(list[0]), Chunks(list[1..]) + LAST, rest);
    Regroup(out, list[0], Flat(list[1..]));
  }

  /** Nothing the writer makes has a long line. */
  lemma {:induction false} ChunksHaveShortLines(list: seq<Bytes>, rest: Bytes, out: Bytes, max: nat)
    requires forall c :: c in list ==> 0 < |c| <= USIZE_MAX
    ensures !LongLine(Chunks(list) + LAST + rest, out, max)
  {
    hide LongLine, Chunk, Decode, Chunks;
    if list == [] {
      NoChunksLeft(rest, out);
      LastReads(rest, out, max);
    } else {
      var c, more := list[0], list[1..];
      assert c in list && forall d :: d in more ==> d in list;
      ChunkThenMore(list, rest, out);
      ChunkReads(c, Chunks(more) + LAST + rest, out, max);
      if |out| + |c| <= max {
        ChunksHaveShortLines(more, rest, out + c, max);
      }
    }
  }
}
