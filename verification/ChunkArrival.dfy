/** depot/src/client.rs, `read_chunked`: when it matters how a chunked body arrives, given that a
    read takes at most 64 KiB. */
module ChunkArrival {
  import opened Common
  import opened ChunkedCoding
  import opened ReadChunked

  const READ := 64 * 1024

  /** What a run of reads can give. */
  predicate Reads(frags: seq<Bytes>) {
    forall f :: f in frags ==> 0 < |f| <= READ
  }

  /** A size line that cannot be in the buffer whole: the guard fires before its last byte comes. */
  predicate HugeLine(t: Bytes, out: Bytes, max: nat) {
    LongLine(t, out, max, LINE_GUARD + READ - 1)
  }

  lemma HugeNext(t: Bytes, out: Bytes, max: nat, p: nat, size: Option<nat>)
    requires Crlf(t) == Some(p) && SizeOf(t[..p]) == size
    ensures HugeLine(t, out, max)
       <==> p >= LINE_GUARD + READ - 1
            || (size.Some? && size.value > 0 && |out| + size.value <= max && |t| >= p + size.value + 4
                && HugeLine(t[p + size.value + 4..], out + t[p + 2..p + 2 + size.value], max))
  {
    hide Crlf, SizeOf;
  }

  lemma NoLineIsShort(t: Bytes, out: Bytes, max: nat)
    requires Crlf(t).None?
    ensures !LongLine(t, out, max) && !HugeLine(t, out, max)
  {
  }

  // --- a huge line is refused however it comes ---------------------------------------------

  lemma ReadsNext(frags: seq<Bytes>)
    requires Reads(frags) && frags != []
    ensures Reads(frags[1..]) && 0 < |frags[0]| <= READ
  {
    assert frags[0] in frags && forall f :: f in frags[1..] ==> f in frags;
  }

  lemma {:induction false} FetchedFits(b: Bytes, frags: seq<Bytes>)
    requires Reads(frags) && |b| <= LINE_GUARD + READ
    ensures |Fetched(b, frags).0| <= LINE_GUARD + READ && Reads(Fetched(b, frags).1)
    decreases |frags|
  {
    hide Crlf;
    if Crlf(b).None? && |b| <= LINE_GUARD && frags != [] {
      ReadsNext(frags);
      FetchedFits(b + frags[0], frags[1..]);
    }
  }

  lemma {:induction false} FilledFits(b: Bytes, frags: seq<Bytes>, need: nat)
    requires Reads(frags)
    ensures |Filled(b, frags, need).0| <= if |b| >= need then |b| else need + READ
    ensures Reads(Filled(b, frags, need).1)
    decreases |frags|
  {
    if |b| < need && frags != [] {
      ReadsNext(frags);
      FilledFits(b + frags[0], frags[1..], need);
    }
  }

  lemma {:induction false} HugeLineIsRefused(b: Bytes, frags: seq<Bytes>, out: Bytes, max: nat)
    requires Reads(frags) && |b| <= LINE_GUARD + READ && HugeLine(b + Flat(frags), out, max)
    ensures ReadAll(b, frags, out, max) == Err(BadLine)
    decreases |b + Flat(frags)|
  {
    hide Flat, Crlf, SizeOf, HugeLine, FindLine, Fetched, Filled, ReadAll, Reads;
    var t := b + Flat(frags);
    var (line, left) := Fetched(b, frags);
    LineIsFound(b, frags);
    FetchedFits(b, frags);
    ReadNoLine(b, frags, out, max);
    if Crlf(t).None? {
      NoLineIsShort(t, out, max);
    } else if FindLine(b, frags).Ok? {
      var p := FindLine(b, frags).value;
      CrlfFits(line);
      LineOfWhole(line, Flat(left), p);
      var size := SizeOf(line[..p]);
      HugeNext(t, out, max, p, size);
      var n := size.value;
      var (data, rest) := Filled(line[p + 2..], left, n + 2);
      FilledFits(line[p + 2..], left, n + 2);
      assert |line[p + 2..] + Flat(left)| >= n + 2;
      ReadData(b, frags, out, max, line, left, p, n, data, rest);
      Shorter(b, frags, line, left, p, n, data, rest);
      HugeLineIsRefused(data[n + 2..], rest, out + data[..n], max);
    }
  }

  // --- two ways to arrive -------------------------------------------------------------------

  /** Byte by byte. */
  function Single(s: Bytes): seq<Bytes> {
    if s == [] then [] else [[s[0]]] + Single(s[1..])
  }

  lemma {:induction false} SingleIs(s: Bytes)
    ensures Reads(Single(s)) && Flat(Single(s)) == s
  {
    if s != [] {
      SingleIs(s[1..]);
      assert Single(s)[1..] == Single(s[1..]);
    }
  }

  lemma {:induction false} FlatJoin(a: seq<Bytes>, b: seq<Bytes>)
    ensures Flat(a + b) == Flat(a) + Flat(b)
  {
    if a == [] {
      assert a + b == b;
    } else {
      assert (a + b)[1..] == a[1..] + b;
      FlatJoin(a[1..], b);
    }
  }

  lemma {:induction false} FilledBySingles(b: Bytes, s: Bytes, more: seq<Bytes>)
    ensures Filled(b, Single(s) + more, |b| + |s|) == (b + s, more)
    decreases |s|
  {
    hide Single, Filled;
    if s == [] {
      NothingToFill(b, s, more);
    } else {
      FillOne(b, s, more, |b| + |s|);
      FilledBySingles(b + [s[0]], s[1..], more);
    }
  }

  lemma NothingToFill(b: Bytes, s: Bytes, more: seq<Bytes>)
    requires s == []
    ensures Filled(b, Single(s) + more, |b|) == (b + s, more)
  {
    assert Single(s) + more == more && b + s == b;
  }

  lemma FillOne(b: Bytes, s: Bytes, more: seq<Bytes>, need: nat)
    requires s != [] && |b| < need
    ensures Filled(b, Single(s) + more, need) == Filled(b + [s[0]], Single(s[1..]) + more, need)
    ensures b + [s[0]] + s[1..] == b + s
  {
    var all := Single(s) + more;
    assert all[0] == [s[0]] && all[1..] == Single(s[1..]) + more;
  }

  /** A size line in one read, or, past the guard, in two. */
  function LineReads(t: Bytes, p: nat): seq<Bytes>
    requires p + 2 <= |t|
  {
    if p < LINE_GUARD then [t[..p + 2]] else [t[..LINE_GUARD], t[LINE_GUARD..p + 2]]
  }

  lemma LineReadsAre(t: Bytes, p: nat)
    requires p + 2 <= |t| && p < LINE_GUARD + READ - 1
    ensures Reads(LineReads(t, p)) && Flat(LineReads(t, p)) == t[..p + 2]
  {
    if p < LINE_GUARD {
      FlatOne(t[..p + 2]);
    } else {
      FlatTwo(t[..LINE_GUARD], t[LINE_GUARD..p + 2]);
      assert t[..LINE_GUARD] + t[LINE_GUARD..p + 2] == t[..p + 2];
    }
  }

  lemma FlatOne(x: Bytes)
    ensures Flat([x]) == x
  {
    assert [x][1..] == [];
  }

  lemma FlatTwo(x: Bytes, y: Bytes)
    ensures Flat([x, y]) == x + y
  {
    assert [x, y][1..] == [y];
    FlatOne(y);
  }

  lemma LineIsFetched(t: Bytes, p: nat, more: seq<Bytes>)
    requires Crlf(t) == Some(p) && p + 2 <= |t|
    ensures Fetched([], LineReads(t, p) + more) == (t[..p + 2], more) && Crlf(t[..p + 2]) == Some(p)
  {
    hide Crlf, Fetched;
    LineAlone(t, p);
    if p < LINE_GUARD {
      HeldBack(t, 0);
      FetchOne([], t[..p + 2], more);
    } else {
      HeldBack(t, LINE_GUARD);
      assert t[..LINE_GUARD] + t[LINE_GUARD..p + 2] == t[..p + 2];
      FetchTwo(t[..LINE_GUARD], t[LINE_GUARD..p + 2], more);
    }
  }

  lemma FetchOne(b: Bytes, x: Bytes, more: seq<Bytes>)
    requires Crlf(b).None? && |b| <= LINE_GUARD
    ensures Fetched(b, [x] + more) == Fetched(b + x, more)
    ensures [] + x == x
    ensures Crlf(b + x).Some? ==> Fetched(b + x, more) == (b + x, more)
  {
    hide Crlf;
    assert ([x] + more)[1..] == more;
  }

  lemma FetchTwo(x: Bytes, y: Bytes, more: seq<Bytes>)
    requires Crlf([]).None? && Crlf(x).None? && |x| <= LINE_GUARD && Crlf(x + y).Some?
    ensures Fetched([], [x, y] + more) == (x + y, more)
  {
    hide Crlf, Fetched;
    FetchOne([], x, [y] + more);
    FetchOne(x, y, more);
    assert [x, y] + more == [x] + ([y] + more);
  }

  lemma LineAlone(t: Bytes, p: nat)
    requires Crlf(t) == Some(p) && p + 2 <= |t|
    ensures Crlf(t[..p + 2]) == Some(p)
  {
    assert t == t[..p + 2] + t[p + 2..];
    CrlfStays(t[..p + 2], t[p + 2..]);
    CrlfAtEnd(t[..p + 2], p);
  }

  lemma {:induction false} CrlfAtEnd(s: Bytes, p: nat)
    requires p + 2 <= |s| && s[p] == CR && s[p + 1] == LF
    ensures Crlf(s).Some?
  {
    if p > 0 {
      CrlfAtEnd(s[1..], p - 1);
    }
  }

  /** A chunk that goes on. */
  predicate GoesOn(t: Bytes, out: Bytes, max: nat, p: nat, size: Option<nat>) {
    size.Some? && size.value > 0 && |out| + size.value <= max && |t| >= p + size.value + 4
  }

  /** The reads of one chunk, and of what follows. */
  function ChunkInReads(t: Bytes, p: nat, n: nat, more: seq<Bytes>): seq<Bytes>
    requires p + n + 4 <= |t|
  {
    LineReads(t, p) + (Single(t[p + 2..p + n + 4]) + more)
  }

  lemma ReadsJoin(a: seq<Bytes>, b: seq<Bytes>)
    requires Reads(a) && Reads(b)
    ensures Reads(a + b)
  {
  }

  lemma ChunkInReadsAre(t: Bytes, p: nat, n: nat, more: seq<Bytes>)
    requires p + n + 4 <= |t| && p < LINE_GUARD + READ - 1 && Reads(more) && Flat(more) == t[p + n + 4..]
    ensures Reads(ChunkInReads(t, p, n, more)) && Flat(ChunkInReads(t, p, n, more)) == t
  {
    hide LineReads, Single, Reads, Flat;
    var x := t[p + 2..p + n + 4];
    LineReadsAre(t, p);
    SingleIs(x);
    ReadsJoin(Single(x), more);
    ReadsJoin(LineReads(t, p), Single(x) + more);
    FlatJoin(Single(x), more);
    FlatJoin(LineReads(t, p), Single(x) + more);
    ThreeParts(t, p + 2, p + n + 4);
  }

  lemma LineSlices(t: Bytes, p: nat)
    requires p + 2 <= |t|
    ensures var line := t[..p + 2]; line[p + 2..] == [] && line[..p] == t[..p]
  {
  }

  lemma ChunkSlices(t: Bytes, p: nat, n: nat)
    requires p + n + 4 <= |t|
    ensures var x := t[p + 2..p + n + 4]; |x| == n + 2 && [] + x == x && x[n + 2..] == [] && x[..n] == t[p + 2..p + 2 + n]
  {
  }

  lemma ThreeParts(t: Bytes, a: nat, b: nat)
    requires a <= b <= |t|
    ensures t[..a] + (t[a..b] + t[b..]) == t
  {
    assert t[a..b] + t[b..] == t[a..];
  }

  lemma ChunkIsRead(t: Bytes, out: Bytes, max: nat, p: nat, n: nat, more: seq<Bytes>)
    requires Crlf(t) == Some(p) && SizeOf(t[..p]) == Some(n) && GoesOn(t, out, max, p, Some(n))
    ensures ReadAll([], ChunkInReads(t, p, n, more), out, max) == ReadAll([], more, out + t[p + 2..p + 2 + n], max)
  {
    hide Crlf, SizeOf, LineReads, Fetched, Filled, ReadAll, Single;
    var x := t[p + 2..p + n + 4];
    var frags := ChunkInReads(t, p, n, more);
    LineIsFetched(t, p, Single(x) + more);
    FilledBySingles([], x, more);
    LineSlices(t, p);
    ChunkSlices(t, p, n);
    ReadData([], frags, out, max, t[..p + 2], Single(x) + more, p, n, x, more);
  }

  /** One way to arrive in which the guard never fires, so long as it need not. */
  lemma {:induction false} GentleReads(t: Bytes, out: Bytes, max: nat) returns (frags: seq<Bytes>)
    requires !HugeLine(t, out, max)
    ensures Reads(frags) && Flat(frags) == t && ReadAll([], frags, out, max) == Decode(t, out, max)
    decreases |t|
  {
    hide *;
    if Crlf(t).None? {
      frags := Single(t);
      SingleIs(t);
      NoLineIsShort(t, out, max);
      ReadAllIs([], frags, out, max);
      assert [] + Flat(frags) == t;
    } else {
      var p := Crlf(t).value;
      CrlfFits(t);
      var size := SizeOf(t[..p]);
      HugeNext(t, out, max, p, size);
      DecodeNext(t, out, max, p, size);
      WhetherItGoesOn(t, out, max, p, size);
      if GoesOn(t, out, max, p, size) {
        var n := size.value;
        var inner := GentleReads(t[p + n + 4..], out + t[p + 2..p + 2 + n], max);
        frags := ChunkInReads(t, p, n, inner);
        ChunkInReadsAre(t, p, n, inner);
        ChunkIsRead(t, out, max, p, n, inner);
      } else {
        frags := FinalReads(t, out, max, p, size);
      }
    }
  }

  lemma WhetherItGoesOn(t: Bytes, out: Bytes, max: nat, p: nat, size: Option<nat>)
    ensures GoesOn(t, out, max, p, size) <==>
            size.Some? && size.value > 0 && |out| + size.value <= max && |t| >= p + size.value + 4
  {
  }

  /** The reads of a line after which no chunk goes on. */
  lemma FinalReads(t: Bytes, out: Bytes, max: nat, p: nat, size: Option<nat>) returns (frags: seq<Bytes>)
    requires Crlf(t) == Some(p) && p + 2 <= |t| && SizeOf(t[..p]) == size && p < LINE_GUARD + READ - 1
    requires !GoesOn(t, out, max, p, size)
    ensures Reads(frags) && Flat(frags) == t && ReadAll([], frags, out, max) == Decode(t, out, max)
  {
    hide Crlf, SizeOf, LineReads, Fetched, Filled, ReadAll, Single, Decode, LongLine, TrailersEnd, Flat, Reads;
    var more := Single(t[p + 2..]);
    frags := LineReads(t, p) + more;
    SingleIs(t[p + 2..]);
    LineReadsAre(t, p);
    ReadsJoin(LineReads(t, p), more);
    FlatJoin(LineReads(t, p), more);
    assert t[..p + 2] + t[p + 2..] == t;
    LineIsFetched(t, p, more);
    var line := t[..p + 2];
    assert line[..p] == t[..p] && line[p + 2..] == [] && [] + t[p + 2..] == t[p + 2..];
    DecodeNext(t, out, max, p, size);
    ReadNext([], frags, out, max, line, more, p, size);
    if size.Some? && size.value > 0 && |out| + size.value <= max {
      var (data, rest) := Filled([], more, size.value + 2);
      TooLittle(more, size.value + 2);
      ReadData([], frags, out, max, line, more, p, size.value, data, rest);
    }
  }

  lemma TooLittle(more: seq<Bytes>, need: nat)
    requires |Flat(more)| < need
    ensures |Filled([], more, need).0| < need
  {
    hide Filled, Flat;
    var (data, rest) := Filled([], more, need);
    assert |data + Flat(rest)| == |[] + Flat(more)| == |Flat(more)|;
  }

  /** And one in which it fires wherever it can. */
  lemma {:induction false} HarshReads(t: Bytes, out: Bytes, max: nat) returns (frags: seq<Bytes>)
    requires LongLine(t, out, max)
    ensures Reads(frags) && Flat(frags) == t && ReadAll([], frags, out, max) == Err(BadLine)
    decreases |t|
  {
    assert LINE_GUARD < LINE_GUARD + READ - 1;
    hide *;
    if Crlf(t).None? {
      NoLineIsShort(t, out, max);
    }
    var p := Crlf(t).value;
    CrlfFits(t);
    if p >= LINE_GUARD {
      frags := CutInside(t, p, out, max);
    } else {
      var size := SizeOf(t[..p]);
      DecodeNext(t, out, max, p, size);
      WhetherItGoesOn(t, out, max, p, size);
      var n := size.value;
      var inner := HarshReads(t[p + n + 4..], out + t[p + 2..p + 2 + n], max);
      frags := ChunkInReads(t, p, n, inner);
      ChunkInReadsAre(t, p, n, inner);
      ChunkIsRead(t, out, max, p, n, inner);
    }
  }

  /** One byte more than the guard allows, and none of the line's LF. */
  lemma CutInside(t: Bytes, p: nat, out: Bytes, max: nat) returns (frags: seq<Bytes>)
    requires Crlf(t) == Some(p) && LINE_GUARD <= p && p + 2 <= |t|
    ensures Reads(frags) && Flat(frags) == t && ReadAll([], frags, out, max) == Err(BadLine)
  {
    hide Crlf, Single, ReadAll, FindLine, Flat;
    var x, y := t[..LINE_GUARD + 1], t[LINE_GUARD + 1..];
    frags := [x] + Single(y);
    SingleIs(y);
    FlatOne(x);
    FlatJoin([x], Single(y));
    assert x + y == t;
    HeldBack(t, LINE_GUARD + 1);
    FindInTwo(x, Single(y));
    ReadNoLine([], frags, out, max);
  }

  // --- when it matters ----------------------------------------------------------------------

  ghost predicate ArrivalMatters(t: Bytes, max: nat) {
    exists f, g :: Reads(f) && Reads(g) && Flat(f) == t && Flat(g) == t && ReadAll([], f, [], max) != ReadAll([], g, [], max)
  }

  /** How a stream arrives makes a difference exactly when it has a size line past the guard, none
      past the guard and a whole read, and is not refused for a line in any case. */
  lemma ArrivalMattersIff(t: Bytes, max: nat)
    ensures ArrivalMatters(t, max) <==> LongLine(t, [], max) && !HugeLine(t, [], max) && Decode(t, [], max) != Err(BadLine)
  {
    hide Decode, LongLine, HugeLine, ReadAll, Flat, Reads;
    if LongLine(t, [], max) && !HugeLine(t, [], max) && Decode(t, [], max) != Err(BadLine) {
      var f := GentleReads(t, [], max);
      var g := HarshReads(t, [], max);
    } else {
      forall f | Reads(f) && Flat(f) == t
        ensures ReadAll([], f, [], max) == if HugeLine(t, [], max) then Err(BadLine) else Decode(t, [], max)
      {
        assert [] + Flat(f) == t;
        ReadAllIs([], f, [], max);
        if HugeLine(t, [], max) {
          HugeLineIsRefused([], f, [], max);
        }
      }
    }
  }
}
