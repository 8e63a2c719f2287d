/** Packs at rest: sealed in chunks as they stream in (depot/src/seal.rs, depot/src/store.rs), and
    opened again by ranged reads (depot/scripts/depot-export.py). */
module PackSeal {
  import opened ByteText
  import opened Common

  const TAG := 16

  /** The cipher of one pack: its key, object key and chunk size are fixed. A chunk is sealed
      under its position and whether it is the last. */
  datatype Cipher = Cipher(seal: (nat, bool, Bytes) -> Bytes, open: (nat, bool, Bytes) -> Option<Bytes>)

  /** What authenticated encryption promises: opening undoes sealing at the same place, and
      nothing else opens. */
  ghost predicate Authentic(c: Cipher) {
    && (forall i, last, p :: |c.seal(i, last, p)| == |p| + TAG && c.open(i, last, c.seal(i, last, p)) == Some(p))
    && (forall i, last, x :: c.open(i, last, x).Some? ==> x == c.seal(i, last, c.open(i, last, x).value))
  }

  // --- the sealed form ------------------------------------------------------------------

  /** Chunks that are not the last: as many whole ones as there are. */
  function Closed(c: Cipher, cs: nat, d: Bytes, k: nat): Bytes
    requires cs > 0
    decreases |d|
  {
    if |d| < cs then [] else c.seal(k, false, d[..cs]) + Closed(c, cs, d[cs..], k + 1)
  }

  /** All of a pack from chunk `k` on; the last chunk may be short, and is empty if all is. */
  function Sealed(c: Cipher, cs: nat, d: Bytes, k: nat): Bytes
    requires cs > 0
    decreases |d|
  {
    if |d| <= cs then c.seal(k, true, d) else c.seal(k, false, d[..cs]) + Sealed(c, cs, d[cs..], k + 1)
  }

  /** Sealing what came first and then the rest is sealing it all. */
  lemma {:induction false} SealedInTwo(c: Cipher, cs: nat, a: Bytes, b: Bytes, k: nat, m: nat)
    requires cs > 0 && |a| == m * cs && (b != [] || a == [])
    ensures Sealed(c, cs, a + b, k) == Closed(c, cs, a, k) + Sealed(c, cs, b, k + m)
    decreases m
  {
    if m == 0 {
      assert a + b == b;
      assert [] + Sealed(c, cs, b, k) == Sealed(c, cs, b, k);
    } else {
      Unit(m, cs);
      assert (a + b)[..cs] == a[..cs] && (a + b)[cs..] == a[cs..] + b;
      SealedInTwo(c, cs, a[cs..], b, k + 1, m - 1);
      Regroup(c.seal(k, false, a[..cs]), Closed(c, cs, a[cs..], k + 1), Sealed(c, cs, b, k + m));
    }
  }

  lemma {:induction false} ClosedInTwo(c: Cipher, cs: nat, a: Bytes, b: Bytes, k: nat, m: nat)
    requires cs > 0 && |a| == m * cs
    ensures Closed(c, cs, a + b, k) == Closed(c, cs, a, k) + Closed(c, cs, b, k + m)
    decreases m
  {
    if m == 0 {
      assert a + b == b;
      assert [] + Closed(c, cs, b, k) == Closed(c, cs, b, k);
    } else {
      Unit(m, cs);
      assert (a + b)[..cs] == a[..cs] && (a + b)[cs..] == a[cs..] + b;
      ClosedInTwo(c, cs, a[cs..], b, k + 1, m - 1);
      Regroup(c.seal(k, false, a[..cs]), Closed(c, cs, a[cs..], k + 1), Closed(c, cs, b, k + m));
    }
  }

  lemma Unit(m: nat, cs: nat)
    requires m > 0
    ensures m * cs == (m - 1) * cs + cs && (m - 1) * cs >= 0
  {
  }

  // --- sealing as it streams ------------------------------------------------------------

  const PART_CHUNKS := 32

  class Upload {
    const c: Cipher
    const cs: nat
    var pending: Bytes
    var chunks: nat
    var stored: Bytes
    /** Everything added so far. */
    ghost var data: Bytes

    ghost predicate Valid()
      reads this
    {
      && cs > 0
      && chunks * cs <= |data|
      && pending == data[chunks * cs..]
      && stored == Closed(c, cs, data[..chunks * cs], 0)
      && (chunks > 0 ==> pending != [])
    }

    constructor (c: Cipher, cs: nat)
      requires cs > 0
      ensures Valid() && data == [] && this.c == c && this.cs == cs
    {
      this.c, this.cs := c, cs;
      pending, chunks, stored, data := [], 0, [], [];
    }

    method Add(more: Bytes)
      requires Valid()
      modifies this
      ensures Valid() && data == old(data) + more
    {
      assert (data + more)[..chunks * cs] == data[..chunks * cs];
      assert (data + more)[chunks * cs..] == pending + more;
      pending := pending + more;
      data := data + more;
    }

    /** `seal_pending`: the first `n` bytes, chunk by chunk. Unless they are the last, they are
        `m` whole chunks. */
    method SealPending(n: nat, last: bool, ghost m: nat) returns (body: Bytes)
      requires cs > 0 && n <= |pending| && (!last ==> n == m * cs && m > 0)
      ensures body == if last then Sealed(c, cs, pending[..n], chunks) else Closed(c, cs, pending[..n], chunks)
    {
      hide Sealed, Closed, Left, Count;
      var k := Count(n, cs);
      body := [];
      LeftStarts(c, cs, pending, n, last, chunks);
      for i := 0 to k
        invariant body + Left(c, cs, pending, n, last, chunks, i)
               == if last then Sealed(c, cs, pending[..n], chunks) else Closed(c, cs, pending[..n], chunks)
      {
        CeilAt(n, cs, i);
        LeftNext(c, cs, pending, n, last, chunks, i, m);
        var x := pending[i * cs..if (i + 1) * cs < n then (i + 1) * cs else n];
        var one := c.seal(chunks + i, last && i + 1 == k, x);
        Regroup(body, one, Left(c, cs, pending, n, last, chunks, i + 1));
        body := body + one;
      }
      LeftEnds(c, cs, pending, n, last, chunks, body);
    }

    /** `upload_step`: one full part goes out when more data waits behind it. */
    method Step() returns (sent: bool)
      requires Valid()
      modifies this
      ensures Valid() && data == old(data)
      ensures sent <==> |old(pending)| > PART_CHUNKS * cs
      ensures sent ==> |pending| == |old(pending)| - PART_CHUNKS * cs
      ensures !sent ==> pending == old(pending)
    {
      if |pending| <= PART_CHUNKS * cs {
        return false;
      }
      var n := PART_CHUNKS * cs;
      Times(1, PART_CHUNKS, cs);
      var body := SealPending(n, false, PART_CHUNKS);
      ghost var a, b := data[..chunks * cs], pending[..n];
      ClosedInTwo(c, cs, a, b, 0, chunks);
      assert (chunks + PART_CHUNKS) * cs == chunks * cs + n;
      assert data[..chunks * cs + n] == a + b;
      assert data[chunks * cs + n..] == pending[n..];
      stored := stored + body;
      pending := pending[n..];
      chunks := chunks + PART_CHUNKS;
      return true;
    }

    /** `upload_finish`: however the data came in, the object is the sealing of all of it. */
    method Finish() returns (whole: Bytes)
      requires Valid()
      modifies this
      ensures whole == Sealed(c, cs, old(data), 0)
    {
      var more := true;
      while more
        invariant Valid() && data == old(data)
        invariant !more ==> |pending| <= PART_CHUNKS * cs
        decreases |pending|, more
      {
        more := Step();
      }
      var body := SealPending(|pending|, true, 0);
      assert pending[..|pending|] == pending;
      assert data == data[..chunks * cs] + pending;
      SealedInTwo(c, cs, data[..chunks * cs], pending, 0, chunks);
      stored := stored + body;
      return stored;
    }
  }

  /** `div_ceil`, and one chunk for nothing at all. */
  function Count(n: nat, cs: nat): nat
    requires cs > 0
  {
    if n == 0 then 1 else (n + cs - 1) / cs
  }

  lemma CeilOf(n: nat, cs: nat)
    requires cs > 0
    ensures var k := Count(n, cs);
            k >= 1 && (k - 1) * cs <= n <= k * cs && (n > 0 ==> (k - 1) * cs < n)
  {
    if n > 0 {
      var k := (n + cs - 1) / cs;
      assert n + cs - 1 == k * cs + (n + cs - 1) % cs;
      Unit(k, cs);
    }
  }

  /** Where chunk `i` of a pack of `n` bytes lies. */
  lemma CeilAt(n: nat, cs: nat, i: nat)
    requires cs > 0 && i < Count(n, cs)
    ensures var k := Count(n, cs);
            && i * cs <= n && (i + 1) * cs == i * cs + cs
            && (i + 1 < k ==> (i + 1) * cs < n)
            && (i + 1 == k ==> n <= (i + 1) * cs)
  {
    var k := Count(n, cs);
    CeilOf(n, cs);
    hide Count;
    Unit(i + 1, cs);
    Times(i, k - 1, cs);
    if i + 1 < k {
      Times(i + 1, k - 1, cs);
    }
  }

  lemma CountIs(n: nat, cs: nat, m: nat)
    requires cs > 0 && m > 0 && (m - 1) * cs < n <= m * cs
    ensures Count(n, cs) == m
  {
    CeilOf(n, cs);
    var k := Count(n, cs);
    hide Count;
    if k < m {
      Times(k, m - 1, cs);
    }
    if k > m {
      Times(m, k - 1, cs);
    }
  }

  /** Whole chunks are as many as they are. */
  lemma CountWhole(m: nat, cs: nat)
    requires cs > 0 && m > 0
    ensures Count(m * cs, cs) == m
  {
    Unit(m, cs);
    CountIs(m * cs, cs, m);
  }

  lemma Times(a: nat, b: nat, cs: nat)
    requires a <= b
    ensures a * cs <= b * cs
  {
  }

  /** What is still to seal from chunk `i` of the batch on. */
  ghost function Left(c: Cipher, cs: nat, p: Bytes, n: nat, last: bool, first: nat, i: nat): Bytes
    requires cs > 0 && n <= |p|
  {
    if i >= Count(n, cs) || i * cs > n then []
    else if last then Sealed(c, cs, p[i * cs..n], first + i)
    else Closed(c, cs, p[i * cs..n], first + i)
  }

  lemma LeftStarts(c: Cipher, cs: nat, p: Bytes, n: nat, last: bool, first: nat)
    requires cs > 0 && n <= |p|
    ensures [] + Left(c, cs, p, n, last, first, 0) == if last then Sealed(c, cs, p[..n], first) else Closed(c, cs, p[..n], first)
  {
    CeilOf(n, cs);
    hide Count, Sealed, Closed;
    assert p[0..n] == p[..n];
  }

  lemma LeftEnds(c: Cipher, cs: nat, p: Bytes, n: nat, last: bool, first: nat, body: Bytes)
    requires cs > 0 && n <= |p|
    ensures body + Left(c, cs, p, n, last, first, Count(n, cs)) == body
  {
  }

  lemma LeftNext(c: Cipher, cs: nat, p: Bytes, n: nat, last: bool, first: nat, i: nat, m: nat)
    requires cs > 0 && n <= |p| && i < Count(n, cs)
    requires !last ==> n == m * cs && m > 0
    ensures i * cs <= n
    ensures var x := p[i * cs..if (i + 1) * cs < n then (i + 1) * cs else n];
            Left(c, cs, p, n, last, first, i)
            == c.seal(first + i, last && i + 1 == Count(n, cs), x) + Left(c, cs, p, n, last, first, i + 1)
  {
    CeilAt(n, cs, i);
    if !last {
      CountWhole(m, cs);
    }
    hide Count;
    var d := p[i * cs..n];
    if i + 1 < Count(n, cs) {
      assert d[cs..] == p[(i + 1) * cs..n] && d[..cs] == p[i * cs..(i + 1) * cs];
    } else if last {
      var one := c.seal(first + i, true, d);
      assert one + [] == one;
    } else {
      assert |d| == cs;
      assert d[..cs] == d && d[cs..] == [];
      assert Closed(c, cs, d[cs..], first + i + 1) == [];
    }
  }

  // --- exporting ------------------------------------------------------------------------

  /** Opening chunk after chunk: `rem` bytes of the pack are still to come, from chunk `k`. */
  function Opened(c: Cipher, cs: nat, o: Bytes, k: nat, rem: nat): Option<Bytes>
    requires cs > 0
    decreases rem
  {
    if rem == 0 then Some([])
    else
      var plen := if rem < cs then rem else cs;
      if |o| < plen + TAG then None
      else
        match c.open(k, rem <= cs, o[..plen + TAG])
        case None => None
        case Some(p) => Prefixed(p, Opened(c, cs, o[plen + TAG..], k + 1, rem - plen))
  }

  lemma Seals(c: Cipher, k: nat, last: bool, p: Bytes)
    requires Authentic(c)
    ensures |c.seal(k, last, p)| == |p| + TAG && c.open(k, last, c.seal(k, last, p)) == Some(p)
  {
  }

  lemma Opens(c: Cipher, k: nat, last: bool, x: Bytes)
    requires Authentic(c) && c.open(k, last, x).Some?
    ensures x == c.seal(k, last, c.open(k, last, x).value) && |x| == |c.open(k, last, x).value| + TAG
  {
  }

  /** Opening takes the first chunk off the front. */
  lemma OpenedNext(c: Cipher, cs: nat, one: Bytes, rest: Bytes, k: nat, rem: nat)
    requires cs > 0 && rem > 0 && |one| == (if rem < cs then rem else cs) + TAG
    ensures Opened(c, cs, one + rest, k, rem)
         == match c.open(k, rem <= cs, one)
            case None => None
            case Some(p) => Prefixed(p, if rem <= cs then Some([]) else Opened(c, cs, rest, k + 1, rem - cs))
  {
    assert (one + rest)[..|one|] == one && (one + rest)[|one|..] == rest;
  }

  lemma OpenedNothing(c: Cipher, cs: nat, o: Bytes, k: nat)
    requires cs > 0
    ensures Opened(c, cs, o, k, 0) == Some([])
  {
  }

  /** What was sealed is opened, whatever stands behind it. */
  lemma {:induction false} OpenedUndoesSealed(c: Cipher, cs: nat, d: Bytes, more: Bytes, k: nat)
    requires Authentic(c) && cs > 0
    ensures Opened(c, cs, Sealed(c, cs, d, k) + more, k, |d|) == Some(d)
    decreases |d|
  {
    hide Authentic, Opened;
    if d == [] {
      OpenedNothing(c, cs, Sealed(c, cs, d, k) + more, k);
    } else if |d| <= cs {
      Seals(c, k, true, d);
      OpenedNext(c, cs, c.seal(k, true, d), more, k, |d|);
      assert d + [] == d;
    } else {
      var one, rest := c.seal(k, false, d[..cs]), Sealed(c, cs, d[cs..], k + 1);
      Seals(c, k, false, d[..cs]);
      Regroup(one, rest, more);
      OpenedNext(c, cs, one, rest + more, k, |d|);
      OpenedUndoesSealed(c, cs, d[cs..], more, k + 1);
      assert d[..cs] + d[cs..] == d;
    }
  }

  /** And what opens was sealed: the object begins with the sealing of just what comes out. */
  lemma {:induction false} OpenedWasSealed(c: Cipher, cs: nat, o: Bytes, k: nat, rem: nat)
    requires Authentic(c) && cs > 0 && rem > 0 && Opened(c, cs, o, k, rem).Some?
    ensures var d := Opened(c, cs, o, k, rem).value;
            |d| == rem && Sealed(c, cs, d, k) <= o
    decreases rem
  {
    OpenedHas(c, cs, o, k, rem);
    hide Authentic, Opened, Sealed;
    var plen := if rem < cs then rem else cs;
    var one, rest := o[..plen + TAG], o[plen + TAG..];
    assert o == one + rest;
    OpenedNext(c, cs, one, rest, k, rem);
    Opens(c, k, rem <= cs, one);
    var p := c.open(k, rem <= cs, one).value;
    if rem <= cs {
      assert p + [] == p;
      SealedNext(c, cs, p, [], k);
    } else {
      OpenedWasSealed(c, cs, rest, k + 1, rem - cs);
      var q := Opened(c, cs, rest, k + 1, rem - cs).value;
      SealedNext(c, cs, p, q, k);
      PrefixConcat(one, Sealed(c, cs, q, k + 1), rest);
    }
  }

  lemma PrefixConcat(a: Bytes, b: Bytes, d: Bytes)
    requires b <= d
    ensures a + b <= a + d
  {
    assert d == b + d[|b|..];
    Regroup(a, b, d[|b|..]);
  }

  lemma OpenedHas(c: Cipher, cs: nat, o: Bytes, k: nat, rem: nat)
    requires cs > 0 && rem > 0 && Opened(c, cs, o, k, rem).Some?
    ensures |o| >= (if rem < cs then rem else cs) + TAG
  {
  }

  lemma SealedNext(c: Cipher, cs: nat, p: Bytes, rest: Bytes, k: nat)
    requires cs > 0
    ensures rest == [] && |p| <= cs ==> Sealed(c, cs, p, k) == c.seal(k, true, p)
    ensures rest != [] && |p| == cs ==> Sealed(c, cs, p + rest, k) == c.seal(k, false, p) + Sealed(c, cs, rest, k + 1)
  {
    if |p| == cs {
      assert (p + rest)[..cs] == p && (p + rest)[cs..] == rest;
    }
  }

  /** Too short an object does not open. */
  lemma {:induction false} OpenedFits(c: Cipher, cs: nat, o: Bytes, k: nat, rem: nat)
    requires cs > 0
    ensures Opened(c, cs, o, k, rem).Some? && rem > 0 ==> |o| >= rem + Count(rem, cs) * TAG
    decreases rem
  {
    if rem > 0 && Opened(c, cs, o, k, rem).Some? {
      hide Count;
      var plen := if rem < cs then rem else cs;
      OpenedFits(c, cs, o[plen + TAG..], k + 1, rem - plen);
      if rem > cs {
        CountLess(rem, cs);
      } else {
        CountOne(rem, cs);
      }
    }
  }

  lemma CountLess(n: nat, cs: nat)
    requires 0 < cs < n
    ensures Count(n, cs) == Count(n - cs, cs) + 1
  {
    var k := Count(n - cs, cs);
    CeilOf(n - cs, cs);
    Unit(k, cs);
    Unit(k + 1, cs);
    CountIs(n, cs, k + 1);
  }

  lemma CountOne(n: nat, cs: nat)
    requires 0 < n <= cs
    ensures Count(n, cs) == 1
  {
    hide Count;
    CountIs(n, cs, 1);
  }

  /** How many chunks a pack of `total` bytes is read in: none for none. */
  function Chunks(total: nat, cs: nat): nat
    requires cs > 0
  {
    (total + cs - 1) / cs
  }

  function PlainLen(total: nat, cs: nat, k: nat): nat {
    if total < k * cs then 0 else if total - k * cs < cs then total - k * cs else cs
  }

  /** Where chunk `k` begins in the sealed object, or where the object ends. */
  function Edge(total: nat, cs: nat, k: nat): nat
    requires cs > 0
  {
    if k < Chunks(total, cs) then k * (cs + TAG) else total + Chunks(total, cs) * TAG
  }

  lemma EdgeNext(total: nat, cs: nat, k: nat)
    requires cs > 0 && k < Chunks(total, cs)
    ensures total > 0 && k * cs < total && (k == Chunks(total, cs) - 1 <==> total - k * cs <= cs)
    ensures k * (cs + TAG) + PlainLen(total, cs, k) + TAG == Edge(total, cs, k + 1)
    ensures k + 1 < Chunks(total, cs) ==> PlainLen(total, cs, k) == cs && total - k * cs - cs == total - (k + 1) * cs
  {
    if total == 0 {
      NoChunks(cs);
    }
    CeilAt(total, cs, k);
    CeilOf(total, cs);
    var n := Chunks(total, cs);
    assert n == Count(total, cs);
    hide Count, Chunks;
    if k < n - 1 {
      Times(k + 1, n - 1, cs);
    } else {
      assert n == k + 1;
    }
    Spread(k, cs);
    Spread(k + 1, cs);
    Unit(k + 1, cs);
  }

  lemma NoChunks(cs: nat)
    requires cs > 0
    ensures Chunks(0, cs) == 0
  {
  }

  lemma Spread(k: nat, cs: nat)
    ensures k * (cs + TAG) == k * cs + k * TAG
  {
  }

  lemma {:induction false} EdgesRise(total: nat, cs: nat, k: nat, j: nat)
    requires cs > 0 && k <= j <= Chunks(total, cs)
    ensures Edge(total, cs, k) <= Edge(total, cs, j)
    decreases j - k
  {
    if k < j {
      EdgeNext(total, cs, k);
      hide Chunks;
      EdgesRise(total, cs, k + 1, j);
    }
  }

  /** What opening gives from chunk `k` on. */
  ghost function Rest(c: Cipher, cs: nat, o: Bytes, total: nat, k: nat): Option<Bytes>
    requires cs > 0
  {
    if k >= Chunks(total, cs) then Some([])
    else if k * (cs + TAG) > |o| || k * cs > total then None
    else Opened(c, cs, o[k * (cs + TAG)..], k, total - k * cs)
  }

  lemma RestNext(c: Cipher, cs: nat, o: Bytes, total: nat, k: nat)
    requires cs > 0 && k < Chunks(total, cs) && Edge(total, cs, k + 1) <= |o|
    ensures Edge(total, cs, k) <= Edge(total, cs, k + 1)
    ensures Rest(c, cs, o, total, k)
         == match c.open(k, k == Chunks(total, cs) - 1, o[Edge(total, cs, k)..Edge(total, cs, k + 1)])
            case None => None
            case Some(p) => Prefixed(p, Rest(c, cs, o, total, k + 1))
  {
    EdgeNext(total, cs, k);
    hide Opened, Chunks;
    var at, end := k * (cs + TAG), Edge(total, cs, k + 1);
    var one, rest := o[at..end], o[end..];
    assert o[at..] == one + rest;
    OpenedNext(c, cs, one, rest, k, total - k * cs);
  }

  /** The ranges asked for follow one another from `a` to `z`. */
  predicate Tiles(gets: seq<(nat, nat)>, a: nat, z: nat) {
    if gets == [] then a == z
    else gets[|gets| - 1].1 == z && gets[|gets| - 1].0 <= z && Tiles(gets[..|gets| - 1], a, gets[|gets| - 1].0)
  }

  /** The inner loop of `export_pack`: chunks `i` to `j` of one range. It uses up the range. */
  method OpenRange(c: Cipher, cs: nat, ghost o: Bytes, raw: Bytes, total: nat, i: nat, j: nat)
    returns (r: Option<Bytes>, ghost off: nat)
    requires cs > 0 && i < j <= Chunks(total, cs) && Edge(total, cs, j) <= |o|
    requires Edge(total, cs, i) <= Edge(total, cs, j) && raw == o[Edge(total, cs, i)..Edge(total, cs, j)]
    ensures Rest(c, cs, o, total, i) == if r.Some? then Prefixed(r.value, Rest(c, cs, o, total, j)) else None
    ensures r.Some? ==> off == |raw|
  {
    hide *;
    var out: Bytes, at := [], 0;
    PrefixedTwice([], [], Rest(c, cs, o, total, i));
    for k := i to j
      invariant at == Edge(total, cs, k) - Edge(total, cs, i) >= 0
      invariant Prefixed(out, Rest(c, cs, o, total, k)) == Rest(c, cs, o, total, i)
    {
      EdgesRise(total, cs, k + 1, j);
      EdgeNext(total, cs, k);
      EdgeOf(total, cs, k);
      RestNext(c, cs, o, total, k);
      var plen := PlainLen(total, cs, k);
      var ct := raw[at..at + plen + TAG];
      SliceOfSlice(o, Edge(total, cs, i), Edge(total, cs, j), at, at + plen + TAG);
      at := at + plen + TAG;
      var p := c.open(k, k == Chunks(total, cs) - 1, ct);
      if p.None? {
        PrefixedTwice(out, [], None);
        return None, 0;
      }
      PrefixedTwice(out, p.value, Rest(c, cs, o, total, k + 1));
      out := out + p.value;
    }
    return Some(out), at;
  }

  lemma SliceOfSlice(o: Bytes, a: nat, b: nat, x: nat, y: nat)
    requires a <= b <= |o| && x <= y <= b - a
    ensures o[a..b][x..y] == o[a + x..a + y]
  {
    var s := o[a..b];
    assert forall i :: 0 <= i < y - x ==> s[x..y][i] == s[x + i] == o[a + x + i] == o[a + x..a + y][i];
  }

  lemma EdgeOf(total: nat, cs: nat, k: nat)
    requires cs > 0 && k < Chunks(total, cs)
    ensures Edge(total, cs, k) == k * (cs + TAG)
  {
  }

  const STEP := 64

  /** `export_pack` up to the git checksum. The ranged reads tile the sealed object with no gap
      and no overlap, and what is written is what opening it chunk by chunk gives. */
  method ExportPack(c: Cipher, cs: nat, o: Bytes, total: nat) returns (r: Option<Bytes>, ghost gets: seq<(nat, nat)>)
    requires cs > 0
    ensures r == Opened(c, cs, o, 0, total)
    ensures r.Some? ==> Tiles(gets, 0, total + Chunks(total, cs) * TAG)
  {
    hide *;
    var n := Chunks(total, cs);
    var out: Bytes, i := [], 0;
    gets := [];
    RestStarts(c, cs, o, total);
    TilesNone();
    PrefixedTwice([], [], Rest(c, cs, o, total, 0));
    while i < n
      invariant i <= n
      invariant Prefixed(out, Rest(c, cs, o, total, i)) == Opened(c, cs, o, 0, total)
      invariant Tiles(gets, 0, Edge(total, cs, i))
    {
      var j := if i + STEP < n then i + STEP else n;
      StepIsPositive();
      EdgeOf(total, cs, i);
      EdgeNext(total, cs, j - 1);
      EdgesRise(total, cs, i, j);
      var a, b := i * (cs + TAG), (j - 1) * (cs + TAG) + PlainLen(total, cs, j - 1) + TAG;
      if b > |o| {
        ShortIsNone(c, cs, o, total, j);
        return None, gets;
      }
      var got;
      ghost var off;
      got, off := OpenRange(c, cs, o, o[a..b], total, i, j);
      if got.None? {
        PrefixedTwice(out, [], None);
        return None, gets;
      }
      PrefixedTwice(out, got.value, Rest(c, cs, o, total, j));
      TilesMore(gets, a, b);
      gets := gets + [(a, b)];
      out := out + got.value;
      i := j;
    }
    RestEnds(c, cs, o, total);
    PrefixedTwice(out, [], None);
    return Some(out), gets;
  }

  lemma StepIsPositive()
    ensures STEP > 0
  {
  }

  lemma RestStarts(c: Cipher, cs: nat, o: Bytes, total: nat)
    requires cs > 0
    ensures Rest(c, cs, o, total, 0) == Opened(c, cs, o, 0, total)
    ensures Edge(total, cs, 0) == 0
  {
    if total == 0 {
      NoChunks(cs);
    } else {
      CeilOf(total, cs);
    }
    assert o[0..] == o;
  }

  lemma RestEnds(c: Cipher, cs: nat, o: Bytes, total: nat)
    requires cs > 0
    ensures Rest(c, cs, o, total, Chunks(total, cs)) == Some([])
    ensures Edge(total, cs, Chunks(total, cs)) == total + Chunks(total, cs) * TAG
  {
  }

  /** An object that ends before a range does not open. */
  lemma ShortIsNone(c: Cipher, cs: nat, o: Bytes, total: nat, j: nat)
    requires cs > 0 && 0 < j <= Chunks(total, cs) && Edge(total, cs, j) > |o|
    ensures Opened(c, cs, o, 0, total) == None
  {
    EdgeNext(total, cs, j - 1);
    EdgesRise(total, cs, j, Chunks(total, cs));
    OpenedFits(c, cs, o, 0, total);
    assert Chunks(total, cs) == Count(total, cs);
  }

  lemma TilesNone()
    ensures Tiles([], 0, 0)
  {
  }

  lemma TilesMore(gets: seq<(nat, nat)>, a: nat, b: nat)
    requires Tiles(gets, 0, a) && a <= b
    ensures Tiles(gets + [(a, b)], 0, b)
  {
    assert (gets + [(a, b)])[..|gets|] == gets;
  }

  /** Exporting undoes sealing, for every pack and every chunk size. */
  method ExportUndoesUpload(c: Cipher, cs: nat, d: Bytes) returns (r: Option<Bytes>)
    requires Authentic(c) && cs > 0
    ensures r == Some(d)
  {
    hide Authentic;
    var up := new Upload(c, cs);
    up.Add(d);
    assert [] + d == d;
    var sealed := up.Finish();
    OpenedUndoesSealed(c, cs, d, [], 0);
    assert sealed + [] == sealed;
    ghost var gets;
    r, gets := ExportPack(c, cs, sealed, |d|);
  }
}
