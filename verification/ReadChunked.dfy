/** depot/src/client.rs, `read_chunked`: the reader, over bytes that arrive in pieces. */
module ReadChunked {
  import opened Common
  import opened ChunkedCoding

  /** Pieces as the wire gives them; a read that gives none is the end. */
  predicate Pieces(frags: seq<Bytes>) {
    forall f :: f in frags ==> f != []
  }

  lemma NextPiece(frags: seq<Bytes>)
    requires Pieces(frags) && frags != []
    ensures Pieces(frags[1..]) && Flat(frags) == frags[0] + Flat(frags[1..]) && frags[0] != []
    ensures |Flat(frags[1..])| < |Flat(frags)|
  {
    assert frags[0] in frags && forall f :: f in frags[1..] ==> f in frags;
  }

  /** The search for a size line's end. None: the wire ended; an error: the guard. */
  function FindLine(b: Bytes, frags: seq<Bytes>): Result<nat, Failure>
    decreases |frags|
  {
    match Crlf(b)
    case Some(p) => Ok(p)
    case None =>
      if |b| > LINE_GUARD then Err(BadLine)
      else if frags == [] then Err(Cut)
      else FindLine(b + frags[0], frags[1..])
  }

  /** The guard fires just where it may: never on a line whose CRLF begins within 1023 bytes,
      however it arrives, and on any longer one if it arrives with its last byte held back. */
  lemma {:induction false} LineIsFound(b: Bytes, frags: seq<Bytes>)
    ensures match Crlf(b + Flat(frags))
            case None => FindLine(b, frags) == Err(if |b + Flat(frags)| > LINE_GUARD then BadLine else Cut)
            case Some(p) => FindLine(b, frags) == Ok(p) || (FindLine(b, frags) == Err(BadLine) && p >= LINE_GUARD)
    decreases |frags|
  {
    CrlfStays(b, Flat(frags));
    if Crlf(b).None? {
      if |b| > LINE_GUARD {
        if Crlf(b + Flat(frags)).Some? {
          CrlfComes(b, Flat(frags));
        }
      } else if frags == [] {
        assert b + Flat(frags) == b;
      } else {
        assert b + Flat(frags) == b + frags[0] + Flat(frags[1..]);
        LineIsFound(b + frags[0], frags[1..]);
      }
    }
  }

  lemma LongLineHeldBack(t: Bytes)
    requires Crlf(t).Some? && Crlf(t).value >= LINE_GUARD
    ensures FindLine([], [t]) == Ok(Crlf(t).value)
    ensures exists k :: 0 < k < |t| && FindLine([], [t[..k], t[k..]]) == Err(BadLine)
  {
    hide Crlf, FindLine;
    var k := Crlf(t).value + 1;
    CrlfFits(t);
    HeldBack(t, k);
    FindInTwo(t, []);
    FindInTwo(t[..k], [t[k..]]);
    assert FindLine([], [t[..k]] + [t[k..]]) == Err(BadLine);
    assert [t[..k]] + [t[k..]] == [t[..k], t[k..]] && [t] + [] == [t];
  }

  lemma FindInTwo(piece: Bytes, frags: seq<Bytes>)
    ensures Crlf(piece).Some? ==> FindLine([], [piece] + frags) == Ok(Crlf(piece).value)
    ensures Crlf(piece).None? && |piece| > LINE_GUARD ==> FindLine([], [piece] + frags) == Err(BadLine)
  {
    assert Crlf([]).None?;
    assert [] + piece == piece;
    FindInOne([], piece, frags);
  }

  lemma HeldBack(t: Bytes, k: nat)
    requires k <= |t| && Crlf(t).Some? && k < Crlf(t).value + 2
    ensures Crlf(t[..k]).None? && Crlf([]).None? && 0 <= LINE_GUARD
  {
    assert t == t[..k] + t[k..];
    CrlfStays(t[..k], t[k..]);
  }

  lemma FindInOne(b: Bytes, piece: Bytes, frags: seq<Bytes>)
    requires Crlf(b).None? && |b| <= LINE_GUARD
    ensures FindLine(b, [piece] + frags) == FindLine(b + piece, frags)
    ensures Crlf(b + piece).Some? ==> FindLine(b + piece, frags) == Ok(Crlf(b + piece).value)
    ensures Crlf(b + piece).None? && |b + piece| > LINE_GUARD ==> FindLine(b + piece, frags) == Err(BadLine)
  {
    hide Crlf;
    assert ([piece] + frags)[1..] == frags;
  }

  // --- what the reader answers, piece by piece ------------------------------------------

  /** The buffer and the pieces to come once the search for a line's end stops. */
  function Fetched(b: Bytes, frags: seq<Bytes>): (r: (Bytes, seq<Bytes>))
    ensures r.0 + Flat(r.1) == b + Flat(frags)
    ensures FindLine(b, frags) == match Crlf(r.0) case Some(p) => Ok(p) case None => Err(if |r.0| > LINE_GUARD then BadLine else Cut)
    decreases |frags|
  {
    if Crlf(b).Some? || |b| > LINE_GUARD || frags == [] then (b, frags)
    else FlatNext(b, frags); Fetched(b + frags[0], frags[1..])
  }

  /** And once `need` bytes are there, or no more come. */
  function Filled(b: Bytes, frags: seq<Bytes>, need: nat): (r: (Bytes, seq<Bytes>))
    ensures r.0 + Flat(r.1) == b + Flat(frags)
    ensures |r.0| >= need || (r.1 == [] && |b + Flat(frags)| < need)
    decreases |frags|
  {
    if |b| >= need then (b, frags)
    else if frags == [] then FlatNothing(b); (b, frags)
    else FlatNext(b, frags); Filled(b + frags[0], frags[1..], need)
  }

  function ReadAll(b: Bytes, frags: seq<Bytes>, out: Bytes, max: nat): Result<Bytes, Failure>
    decreases |b + Flat(frags)|
  {
    var (line, left) := Fetched(b, frags);
    match Crlf(line)
    case None => Err(if |line| > LINE_GUARD then BadLine else Cut)
    case Some(p) =>
      match SizeOf(line[..p])
      case None => Err(BadSize)
      case Some(n) =>
        if n == 0 then if TrailersEnd(line[p + 2..] + Flat(left)) then Ok(out) else Err(Cut)
        else if |out| + n > max then Err(TooLarge)
        else
          var (data, rest) := Filled(line[p + 2..], left, n + 2);
          if |data| < n + 2 then Err(Cut)
          else
            Shorter(b, frags, line, left, p, n, data, rest);
            ReadAll(data[n + 2..], rest, out + data[..n], max)
  }

  lemma Shorter(b: Bytes, frags: seq<Bytes>, line: Bytes, left: seq<Bytes>, p: nat, n: nat, data: Bytes, rest: seq<Bytes>)
    requires line + Flat(left) == b + Flat(frags) && p + 2 <= |line| && n + 2 <= |data|
    requires data + Flat(rest) == line[p + 2..] + Flat(left)
    ensures |data[n + 2..] + Flat(rest)| < |b + Flat(frags)|
    ensures var t := b + Flat(frags);
            |t| >= p + n + 4 && data[n + 2..] + Flat(rest) == t[p + n + 4..] && data[..n] == t[p + 2..p + 2 + n]
  {
    hide Flat;
    TextAfter(line, Flat(left), data, Flat(rest), p, n);
  }

  lemma TextAfter(line: Bytes, more: Bytes, data: Bytes, rest: Bytes, p: nat, n: nat)
    requires p + 2 <= |line| && n + 2 <= |data| && data + rest == line[p + 2..] + more
    ensures var t := line + more;
            && |t| == p + 2 + |data + rest| && |data[n + 2..] + rest| == |data + rest| - n - 2
            && data[n + 2..] + rest == t[p + n + 4..] && data[..n] == t[p + 2..p + 2 + n]
  {
    var t := line + more;
    Dropped(line, more, p + 2);
    Dropped(data, rest, n + 2);
    assert t[p + 2..] == data + rest;
    Nested(t, p + 2, n);
    assert (data + rest)[..n] == data[..n];
  }

  lemma Dropped(a: Bytes, b: Bytes, n: nat)
    requires n <= |a|
    ensures (a + b)[n..] == a[n..] + b
  {
  }

  /** One size line, as the reader takes it. */
  lemma ReadNext(b: Bytes, frags: seq<Bytes>, out: Bytes, max: nat, line: Bytes, left: seq<Bytes>, p: nat, size: Option<nat>)
    requires Fetched(b, frags) == (line, left) && Crlf(line) == Some(p) && SizeOf(line[..p]) == size
    ensures size == None ==> ReadAll(b, frags, out, max) == Err(BadSize)
    ensures size == Some(0) ==> ReadAll(b, frags, out, max) == if TrailersEnd(line[p + 2..] + Flat(left)) then Ok(out) else Err(Cut)
    ensures size.Some? && size.value > 0 && |out| + size.value > max ==> ReadAll(b, frags, out, max) == Err(TooLarge)
  {
    hide Fetched, Filled, Flat, Crlf, SizeOf, TrailersEnd;
  }

  lemma ReadNoLine(b: Bytes, frags: seq<Bytes>, out: Bytes, max: nat)
    ensures FindLine(b, frags).Err? ==> ReadAll(b, frags, out, max) == Err(FindLine(b, frags).error)
  {
    hide Fetched, Filled, Flat, Crlf, SizeOf, TrailersEnd, FindLine;
    var at := Fetched(b, frags);
  }

  /** And its chunk. */
  lemma ReadData(
    b: Bytes, frags: seq<Bytes>, out: Bytes, max: nat, line: Bytes, left: seq<Bytes>, p: nat, n: nat, data: Bytes, rest: seq<Bytes>)
    requires Fetched(b, frags) == (line, left) && Crlf(line) == Some(p) && SizeOf(line[..p]) == Some(n)
    requires 0 < n && |out| + n <= max && Filled(line[p + 2..], left, n + 2) == (data, rest)
    ensures |data| < n + 2 ==> ReadAll(b, frags, out, max) == Err(Cut)
    ensures |data| >= n + 2 ==>
              ReadAll(b, frags, out, max) == ReadAll(data[n + 2..], rest, out + data[..n], max)
              && |data[n + 2..] + Flat(rest)| < |b + Flat(frags)|
  {
    hide Fetched, Filled, Flat, Crlf, SizeOf, TrailersEnd;
    var at, got := Fetched(b, frags), Filled(line[p + 2..], left, n + 2);
    if |data| >= n + 2 {
      Shorter(b, frags, line, left, p, n, data, rest);
    }
  }

  /** Whatever the pieces, the answer is what the whole stream says; only a size line past the
      guard may be refused for the way it arrives. */
  lemma {:induction false} ReadAllIs(b: Bytes, frags: seq<Bytes>, out: Bytes, max: nat)
    ensures var t := b + Flat(frags);
            ReadAll(b, frags, out, max) == Decode(t, out, max)
            || (ReadAll(b, frags, out, max) == Err(BadLine) && LongLine(t, out, max))
    decreases |b + Flat(frags)|
  {
    hide *;
    var t := b + Flat(frags);
    var (line, left) := Fetched(b, frags);
    LineIsFound(b, frags);
    LineOrNot(t, out, max);
    ReadNoLine(b, frags, out, max);
    if FindLine(b, frags).Ok? {
      var p := FindLine(b, frags).value;
      CrlfStays(line, Flat(left));
      CrlfFits(line);
      LineOfWhole(line, Flat(left), p);
      var size := SizeOf(line[..p]);
      DecodeNext(t, out, max, p, size);
      ReadNext(b, frags, out, max, line, left, p, size);
      if size.Some? && size.value > 0 && |out| + size.value <= max {
        var n := size.value;
        var (data, rest) := Filled(line[p + 2..], left, n + 2);
        ReadData(b, frags, out, max, line, left, p, n, data, rest);
        if |data| >= n + 2 {
          Shorter(b, frags, line, left, p, n, data, rest);
          ReadAllIs(data[n + 2..], rest, out + data[..n], max);
        }
      }
    }
  }

  lemma LineOfWhole(line: Bytes, more: Bytes, p: nat)
    requires p + 2 <= |line|
    ensures (line + more)[..p] == line[..p] && (line + more)[p + 2..] == line[p + 2..] + more
  {
  }

  /** `fill`: one more piece, or the end of the wire. */
  method Fill(buf: Bytes, frags: seq<Bytes>) returns (ok: bool, buf': Bytes, frags': seq<Bytes>)
    requires Pieces(frags)
    ensures ok == (frags != [])
    ensures ok ==> buf' == buf + frags[0] && frags' == frags[1..] && Pieces(frags')
    ensures ok ==> buf' + Flat(frags') == buf + Flat(frags) && |buf'| > |buf|
    ensures !ok ==> buf' == buf && frags' == frags && Flat(frags) == []
  {
    if frags == [] {
      return false, buf, frags;
    }
    NextPiece(frags);
    assert buf + frags[0] + Flat(frags[1..]) == buf + Flat(frags);
    return true, buf + frags[0], frags[1..];
  }

  /** The inner loop that looks for the CRLF of a size line from `pos` on. */
  method ReadLine(buf: Bytes, pos: nat, frags: seq<Bytes>) returns (r: Result<nat, Failure>, buf': Bytes, frags': seq<Bytes>)
    requires Pieces(frags) && pos <= |buf|
    ensures Pieces(frags') && pos <= |buf'| && (buf'[pos..], frags') == Fetched(buf[pos..], frags)
    ensures r == FindLine(buf[pos..], frags)
    ensures r.Ok? ==> Crlf(buf'[pos..]) == Some(r.value)
  {
    hide Crlf, Flat;
    buf', frags' := buf, frags;
    while true
      invariant Pieces(frags') && pos <= |buf'|
      invariant Fetched(buf'[pos..], frags') == Fetched(buf[pos..], frags)
      invariant FindLine(buf'[pos..], frags') == FindLine(buf[pos..], frags)
      decreases |frags'|
    {
      var p := Crlf(buf'[pos..]);
      if p.Some? {
        return Ok(p.value), buf', frags';
      }
      if |buf'| - pos > LINE_GUARD {
        return Err(BadLine), buf', frags';
      }
      if frags' == [] {
        return Err(Cut), buf', frags';
      }
      ghost var piece := frags'[0];
      assert (buf' + piece)[pos..] == buf'[pos..] + piece;
      var ok;
      ok, buf', frags' := Fill(buf', frags');
    }
    assert false;
  }

  lemma FlatNext(b: Bytes, frags: seq<Bytes>)
    requires frags != []
    ensures b + frags[0] + Flat(frags[1..]) == b + Flat(frags)
  {
    assert b + (frags[0] + Flat(frags[1..])) == b + frags[0] + Flat(frags[1..]);
  }

  /** The trailer loop: lines are skipped up to a blank one. */
  method SkipTrailers(buf: Bytes, start: nat, frags: seq<Bytes>) returns (ok: bool)
    requires Pieces(frags) && start <= |buf|
    ensures ok == TrailersEnd(buf[start..] + Flat(frags))
  {
    hide Crlf, Flat;
    var buf', pos: nat, frags' := buf, start, frags;
    while true
      invariant Pieces(frags') && pos <= |buf'|
      invariant TrailersEnd(buf'[pos..] + Flat(frags')) == TrailersEnd(buf[start..] + Flat(frags))
      decreases |frags'|, |buf'| - pos
    {
      var t := buf'[pos..];
      var p := Crlf(t);
      if p.Some? {
        CrlfStays(t, Flat(frags'));
        if p.value == 0 {
          return true;
        }
        CrlfFits(t);
        assert (t + Flat(frags'))[p.value + 2..] == buf'[pos + p.value + 2..] + Flat(frags');
        pos := pos + p.value + 2;
      } else {
        if frags' == [] {
          FlatNothing(t);
          return false;
        }
        ghost var left := frags';
        assert (buf' + frags'[0])[pos..] == t + frags'[0];
        var ok';
        ok', buf', frags' := Fill(buf', frags');
        FlatNext(t, left);
      }
    }
    assert false;
  }

  lemma CrlfFits(t: Bytes)
    ensures Crlf(t).Some? ==> Crlf(t).value + 2 <= |t|
  {
  }

  lemma FlatNothing(t: Bytes)
    ensures Flat([]) == [] && t + Flat([]) == t
  {
  }

  /** Until `need` bytes are there. */
  method FillTo(buf: Bytes, pos: nat, need: nat, frags: seq<Bytes>) returns (ok: bool, buf': Bytes, frags': seq<Bytes>)
    requires Pieces(frags) && pos <= |buf| && pos <= need
    ensures Pieces(frags') && pos <= |buf'| && (buf'[pos..], frags') == Filled(buf[pos..], frags, need - pos)
    ensures ok == (|buf'| >= need)
  {
    hide Flat;
    buf', frags' := buf, frags;
    while |buf'| < need
      invariant Pieces(frags') && pos <= |buf'|
      invariant Filled(buf'[pos..], frags', need - pos) == Filled(buf[pos..], frags, need - pos)
      decreases |frags'|
    {
      if frags' == [] {
        return false, buf', frags';
      }
      assert (buf' + frags'[0])[pos..] == buf'[pos..] + frags'[0];
      var ok';
      ok', buf', frags' := Fill(buf', frags');
    }
    return true, buf', frags';
  }

  /** `read_chunked`. Whatever the pieces, the answer is what the whole stream says; only a size
      line past the guard may be refused for the way it arrives. The body never exceeds `max`. */
  method ReadBody(buf0: Bytes, frags0: seq<Bytes>, max: nat) returns (r: Result<Bytes, Failure>)
    requires Pieces(frags0)
    ensures r == ReadAll(buf0, frags0, [], max)
    ensures r == Decode(buf0 + Flat(frags0), [], max) || (r == Err(BadLine) && LongLine(buf0 + Flat(frags0), [], max))
    ensures r.Ok? ==> |r.value| <= max
  {
    hide *;
    ReadAllIs(buf0, frags0, [], max);
    var buf, frags := buf0, frags0;
    var out: Bytes, pos: nat := [], 0;
    assert buf[0..] == buf;
    while true
      invariant Pieces(frags) && pos <= |buf| && |out| <= max
      invariant ReadAll(buf[pos..], frags, out, max) == ReadAll(buf0, frags0, [], max)
      decreases |buf[pos..] + Flat(frags)|
    {
      ghost var was, left := buf[pos..], frags;
      ReadNoLine(was, left, out, max);
      var line;
      line, buf, frags := ReadLine(buf, pos, frags);
      if line.Err? {
        return Err(line.error);
      }
      var p := line.value;
      CrlfFits(buf[pos..]);
      ghost var found, next := buf[pos..], frags;
      Slices(buf, pos, p);
      var size := SizeOf(buf[pos..pos + p]);
      ReadNext(was, left, out, max, found, next, p, size);
      if size.None? {
        return Err(BadSize);
      }
      var n := size.value;
      pos := pos + p + 2;
      if n == 0 {
        var ended := SkipTrailers(buf, pos, frags);
        return if ended then Ok(out) else Err(Cut);
      }
      if n > max || |out| > max - n {
        return Err(TooLarge);
      }
      var ok;
      ok, buf, frags := FillTo(buf, pos, pos + n + 2, frags);
      ReadData(was, left, out, max, found, next, p, n, buf[pos..], frags);
      if !ok {
        return Err(Cut);
      }
      Slices(buf, pos, n);
      out := out + buf[pos..pos + n];
      pos := pos + n + 2;
      if pos > 0x10_0000 {
        buf := buf[pos..];
        pos := 0;
      }
    }
    assert false;
  }

  lemma Slices(buf: Bytes, pos: nat, n: nat)
    requires pos + n + 2 <= |buf|
    ensures buf[pos..][..n] == buf[pos..pos + n] && buf[pos..][n + 2..] == buf[pos + n + 2..]
  {
  }

  lemma Nested(t: Bytes, a: nat, n: nat)
    requires a + n + 2 <= |t|
    ensures t[a..a + n] == t[a..][..n] && t[a + n + 2..] == t[a..][n + 2..]
  {
  }

  lemma LineOrNot(t: Bytes, out: Bytes, max: nat)
    ensures Crlf(t).None? ==> Decode(t, out, max) == Err(if |t| > LINE_GUARD then BadLine else Cut)
    ensures Crlf(t).Some? && Crlf(t).value >= LINE_GUARD ==> LongLine(t, out, max)
  {
  }

  /** So what `chunk_into` wrote is read back, in whatever pieces it comes. */
  method ReadWhatWasWritten(list: seq<Bytes>, rest: Bytes, buf: Bytes, frags: seq<Bytes>, max: nat) returns (r: Result<Bytes, Failure>)
    requires forall c :: c in list ==> 0 < |c| <= USIZE_MAX
    requires Pieces(frags) && buf + Flat(frags) == Chunks(list) + LAST + rest
    ensures r == if |Flat(list)| <= max then Ok(Flat(list)) else Err(TooLarge)
  {
    hide Decode, LongLine, Chunks, Flat, Pieces;
    DecodeUndoesChunks(list, rest, [], max);
    ChunksHaveShortLines(list, rest, [], max);
    assert [] + Flat(list) == Flat(list);
    r := ReadBody(buf, frags, max);
    if list == [] {
      FlatNothing([]);
    }
  }
}
