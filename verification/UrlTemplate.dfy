/** api-mcp-adapter/src/engine.rs: the URL of a planned call, from a template and the arguments,
    and the query decoder of src/lib.rs that reads such URLs. */
module UrlTemplate {
  import opened Common
  import opened ByteText
  import opened Percent

  const SLASH: byte := 47
  const QUESTION: byte := 63
  const HASH: byte := 35
  const AMP: byte := 38
  const EQUALS: byte := 61
  const OPEN: byte := 123
  const CLOSE: byte := 125
  const AFTER_SCHEME: Bytes := [58, 47, 47]
  const HTTP: Bytes := [104, 116, 116, 112, 58, 47, 47]
  const HTTPS: Bytes := [104, 116, 116, 112, 115, 58, 47, 47]

  type Args = seq<(Bytes, Bytes)>

  // --- the authority --------------------------------------------------------------------

  predicate EndsAuthority(b: byte) {
    b == SLASH || b == QUESTION || b == HASH
  }

  /** What stands before the first `/`, `?` or `#`. */
  function UpToEnd(s: Bytes): Bytes {
    if s == [] || EndsAuthority(s[0]) then [] else [s[0]] + UpToEnd(s[1..])
  }

  function SchemeEnd(url: Bytes): (r: Option<nat>)
    ensures r.Some? ==> r.value + 3 <= |url|
  {
    if |url| < 3 then None
    else if url[..3] == AFTER_SCHEME then Some(0)
    else
      match SchemeEnd(url[1..])
      case Some(i) => Some(i + 1)
      case None => None
  }

  /** What stands after the first `://`, or everything. */
  function AfterScheme(url: Bytes): Bytes {
    match SchemeEnd(url)
    case Some(i) => url[i + 3..]
    case None => url
  }

  function AuthorityOf(url: Bytes): Bytes {
    UpToEnd(AfterScheme(url))
  }

  predicate Absolute(url: Bytes) {
    HTTP <= url || HTTPS <= url
  }

  // --- substitution ---------------------------------------------------------------------

  function Lookup(args: Args, key: Bytes): Option<Bytes> {
    if args == [] then None else if args[0].0 == key then Some(args[0].1) else Lookup(args[1..], key)
  }

  /** `{key}` by its encoded argument; an unknown one is copied with its braces. With the names
      consumed. */
  function Substitute(url: Bytes, args: Args): (Bytes, seq<Bytes>)
    decreases |url|
  {
    match Braces(url)
    case None => (url, [])
    case Some((i, j)) => Filled(url, i, j, Lookup(args, url[i + 1..i + j]), Substitute(url[i + j + 1..], args))
  }

  /** The first opening brace, and how far behind it the next closing one is. */
  function Braces(url: Bytes): (r: Option<(nat, nat)>)
    ensures r.Some? ==> r.value.1 > 0 && r.value.0 + r.value.1 < |url|
  {
    match IndexOf(url, OPEN)
    case None => None
    case Some(i) =>
      match IndexOf(url[i..], CLOSE)
      case None => None
      case Some(j) =>
        BracesAt(url, i, j);
        Some((i, j))
  }

  /** What becomes of the braces at `i` and `i + j`, given the argument and all that follows. */
  function Filled(url: Bytes, i: nat, j: nat, v: Option<Bytes>, rest: (Bytes, seq<Bytes>)): (Bytes, seq<Bytes>)
    requires 0 < j && i + j < |url|
  {
    match v
    case Some(v) => (url[..i] + Pct(v) + rest.0, [url[i + 1..i + j]] + rest.1)
    case None => (url[..i + j + 1] + rest.0, rest.1)
  }

  /** The arguments the URL has not consumed, but for reserved pictures. */
  function Leftovers(args: Args, used: seq<Bytes>, reserved: set<Bytes>): Args {
    if args == [] then []
    else if args[0].0 in used || args[0].0 in reserved then Leftovers(args[1..], used, reserved)
    else [args[0]] + Leftovers(args[1..], used, reserved)
  }

  function PairText(kv: (Bytes, Bytes)): Bytes {
    Pct(kv.0) + [EQUALS] + Pct(kv.1)
  }

  function Tail(list: Args): Bytes {
    if list == [] then [] else [AMP] + PairText(list[0]) + Tail(list[1..])
  }

  /** What is appended for the arguments left over. */
  function QueryText(url: Bytes, list: Args): Bytes {
    if list == [] then [] else [if QUESTION in url then AMP else QUESTION] + PairText(list[0]) + Tail(list[1..])
  }

  // --- what substitution keeps ----------------------------------------------------------

  lemma {:induction false} UpToEndStays(x: Bytes, y: Bytes)
    requires |UpToEnd(x)| < |x| || y == [] || EndsAuthority(y[0])
    ensures UpToEnd(x + y) == UpToEnd(x)
  {
    if x == [] {
      assert x + y == y;
    } else if !EndsAuthority(x[0]) {
      assert (x + y)[1..] == x[1..] + y;
      UpToEndStays(x[1..], y);
    }
  }

  lemma {:induction false} UpToEndIsPrefix(x: Bytes)
    ensures UpToEnd(x) <= x
    ensures (exists b :: b in x && EndsAuthority(b)) ==> |UpToEnd(x)| < |x|
    ensures |UpToEnd(x)| < |x| ==> EndsAuthority(x[|UpToEnd(x)|])
  {
    if x != [] && !EndsAuthority(x[0]) {
      assert x == [x[0]] + x[1..];
      UpToEndIsPrefix(x[1..]);
    }
  }

  lemma SchemeOfAbsolute(url: Bytes)
    requires Absolute(url)
    ensures SchemeEnd(url) == Some(if HTTP <= url then 4 else 5)
  {
    hide SchemeEnd;
    var n := if HTTP <= url then 4 else 5;
    assert url[n] == 58 && url[n + 1] == 47 && url[n + 2] == 47;
    assert url[0] == 104 && url[1] == 116 && url[2] == 116 && url[3] == 112;
    assert n == 5 ==> url[4] == 115;
    SchemeHere(url, n);
    SchemeNext(url, 0);
    SchemeNext(url, 1);
    SchemeNext(url, 2);
    SchemeNext(url, 3);
    if n == 5 {
      SchemeNext(url, 4);
    }
    assert url[0..] == url;
  }

  lemma SchemeHere(url: Bytes, n: nat)
    requires n + 3 <= |url| && url[n] == 58 && url[n + 1] == 47 && url[n + 2] == 47
    ensures SchemeEnd(url[n..]) == Some(0)
  {
    assert url[n..][..3] == AFTER_SCHEME;
  }

  lemma SchemeNext(url: Bytes, i: nat)
    requires i + 4 <= |url| && url[i] != 58
    ensures SchemeEnd(url[i..]) == match SchemeEnd(url[i + 1..]) case Some(k) => Some(k + 1) case None => None
  {
    assert url[i..][..3][0] != 58;
    assert url[i..][1..] == url[i + 1..];
  }

  function SchemeLength(url: Bytes): nat {
    if HTTP <= url then 7 else 8
  }

  lemma AuthorityIs(url: Bytes)
    requires Absolute(url)
    ensures SchemeLength(url) <= |url| && AuthorityOf(url) == UpToEnd(url[SchemeLength(url)..])
    ensures forall b :: b in url[..SchemeLength(url)] ==> b !in {OPEN, QUESTION, HASH}
  {
    SchemeOfAbsolute(url);
    if HTTP <= url {
      assert url[..7] == HTTP;
    } else {
      assert url[..8] == HTTPS;
    }
  }

  lemma AbsoluteStays(head: Bytes, tail: Bytes)
    requires Absolute(head)
    ensures Absolute(head + tail) && SchemeLength(head + tail) == SchemeLength(head) <= |head|
  {
    var whole := head + tail;
    assert forall i :: 0 <= i < |head| ==> whole[i] == head[i];
    if HTTP <= head {
      assert HTTP <= whole;
    } else {
      assert HTTPS <= whole;
      assert whole[4] == HTTPS[4] != HTTP[4];
    }
  }

  /** A text that keeps a URL through the end of its authority has the same one. */
  lemma AuthorityStays(head: Bytes, tail: Bytes)
    requires Absolute(head)
    requires |UpToEnd(head[SchemeLength(head)..])| < |head| - SchemeLength(head) || tail == [] || EndsAuthority(tail[0])
    ensures Absolute(head + tail) && AuthorityOf(head + tail) == AuthorityOf(head)
  {
    hide *;
    var n := SchemeLength(head);
    AbsoluteStays(head, tail);
    AuthorityIs(head);
    AuthorityIs(head + tail);
    assert (head + tail)[n..] == head[n..] + tail;
    UpToEndStays(head[n..], tail);
  }

  /** What comes before the first brace is copied. */
  lemma SubstituteKeepsHead(url: Bytes, args: Args)
    ensures match IndexOf(url, OPEN)
            case None => Substitute(url, args).0 == url
            case Some(i) => url[..i] <= Substitute(url, args).0
  {
  }

  /** The guard on the expanded template is enough: no arguments change the authority. */
  lemma SubstituteKeepsAuthority(base: Bytes, args: Args)
    requires Absolute(base) && OPEN !in AuthorityOf(base)
    ensures Absolute(Substitute(base, args).0) && AuthorityOf(Substitute(base, args).0) == AuthorityOf(base)
  {
    SubstituteKeepsHead(base, args);
    hide *;
    match IndexOf(base, OPEN)
    case None =>
    case Some(i) =>
      BraceIsLate(base, i);
      BeforeBrace(base, i, Substitute(base, args).0);
  }

  /** A brace that is not in the authority comes after what ends it. */
  lemma BraceIsLate(base: Bytes, i: nat)
    requires Absolute(base) && OPEN !in AuthorityOf(base)
    requires i < |base| && base[i] == OPEN
    ensures SchemeLength(base) + |AuthorityOf(base)| < i
  {
    hide *;
    var n := SchemeLength(base);
    AuthorityIs(base);
    if i < n {
      InHead(base, n, i);
    }
    assert base[n..][i - n] == base[i];
    NoBraceBefore(base[n..], i - n);
  }

  lemma InHead(s: Bytes, n: nat, i: nat)
    requires i < n <= |s|
    ensures s[i] in s[..n] && (s[i] == OPEN ==> s[i] in {OPEN, QUESTION, HASH})
  {
    assert s[..n][i] == s[i];
  }

  lemma {:induction false} NoBraceBefore(s: Bytes, k: nat)
    requires k < |s| && s[k] == OPEN && OPEN !in UpToEnd(s)
    ensures |UpToEnd(s)| < k
  {
    if !EndsAuthority(s[0]) {
      var rest := UpToEnd(s[1..]);
      assert UpToEnd(s)[0] == s[0] && UpToEnd(s)[0] in UpToEnd(s);
      assert forall b :: b in rest ==> b in UpToEnd(s);
      NoBraceBefore(s[1..], k - 1);
    }
  }

  lemma {:induction false} UpToEndCut(s: Bytes, m: nat)
    requires |UpToEnd(s)| < m <= |s|
    ensures UpToEnd(s[..m]) == UpToEnd(s)
  {
    assert s[..m][0] == s[0];
    if !EndsAuthority(s[0]) {
      assert s[..m][1..] == s[1..][..m - 1];
      UpToEndCut(s[1..], m - 1);
    }
  }

  lemma BeforeBrace(base: Bytes, i: nat, out: Bytes)
    requires Absolute(base) && i <= |base| && base[..i] <= out
    requires SchemeLength(base) + |AuthorityOf(base)| < i
    ensures Absolute(out) && AuthorityOf(out) == AuthorityOf(base)
  {
    hide *;
    var n, head := SchemeLength(base), base[..i];
    AuthorityIs(base);
    HeadIsAbsolute(base, i);
    assert head[n..] == base[n..][..i - n];
    UpToEndCut(base[n..], i - n);
    AuthorityStays(head, base[i..]);
    AuthorityStays(head, out[i..]);
    assert base == head + base[i..] && out == head + out[i..];
  }

  lemma HeadIsAbsolute(base: Bytes, i: nat)
    requires Absolute(base) && SchemeLength(base) < i <= |base|
    ensures Absolute(base[..i]) && SchemeLength(base[..i]) == SchemeLength(base)
  {
    assert forall k :: 0 <= k < i ==> base[..i][k] == base[k];
    if HTTP <= base {
      assert HTTP <= base[..i];
    } else {
      assert HTTPS <= base[..i];
      assert base[..i][4] == HTTPS[4] != HTTP[4];
    }
  }

  lemma {:induction false} NotIn(s: Bytes, b: byte)
    requires b !in s
    ensures IndexOf(s, b) == None
  {
    if s != [] {
      assert s[0] in s && forall x :: x in s[1..] ==> x in s;
      NotIn(s[1..], b);
    }
  }

  lemma {:induction false} IndexAfter(a: Bytes, c: Bytes, b: byte)
    requires IndexOf(a, b) == None
    ensures IndexOf(a + c, b) == match IndexOf(c, b) case None => None case Some(i) => Some(|a| + i)
  {
    if a == [] {
      assert a + c == c;
    } else {
      assert (a + c)[1..] == a[1..] + c;
      assert a[0] in a;
      IndexAfter(a[1..], c, b);
    }
  }

  lemma SubstituteNext(url: Bytes, args: Args, i: nat, j: nat)
    requires IndexOf(url, OPEN) == Some(i) && IndexOf(url[i..], CLOSE) == Some(j)
    ensures i + j < |url| && url[i] == OPEN && url[i + j] == CLOSE && j > 0
    ensures Substitute(url, args) == Filled(url, i, j, Lookup(args, url[i + 1..i + j]), Substitute(url[i + j + 1..], args))
  {
    hide *;
    BracesAt(url, i, j);
    BracesAre(url, i, j);
    SubstituteAt(url, args, i, j);
  }

  lemma BracesAre(url: Bytes, i: nat, j: nat)
    requires IndexOf(url, OPEN) == Some(i) && IndexOf(url[i..], CLOSE) == Some(j)
    ensures Braces(url) == Some((i, j))
  {
    hide IndexOf;
  }

  lemma SubstituteAt(url: Bytes, args: Args, i: nat, j: nat)
    requires Braces(url) == Some((i, j))
    ensures Substitute(url, args) == Filled(url, i, j, Lookup(args, url[i + 1..i + j]), Substitute(url[i + j + 1..], args))
  {
    hide Lookup, Pct, Filled, Braces;
  }

  lemma FilledIs(url: Bytes, i: nat, j: nat, v: Option<Bytes>, rest: (Bytes, seq<Bytes>))
    requires 0 < j && i + j < |url|
    ensures v.Some? ==> Filled(url, i, j, v, rest) == (url[..i] + Pct(v.value) + rest.0, [url[i + 1..i + j]] + rest.1)
    ensures v.None? ==> Filled(url, i, j, v, rest) == (url[..i + j + 1] + rest.0, rest.1)
  {
  }

  lemma BracesAt(url: Bytes, i: nat, j: nat)
    requires IndexOf(url, OPEN) == Some(i) && IndexOf(url[i..], CLOSE) == Some(j)
    ensures i + j < |url| && url[i] == OPEN && url[i + j] == CLOSE && j > 0
  {
    hide *;
    FoundAt(url, OPEN);
    FoundAt(url[i..], CLOSE);
    OpenIsNotClose();
    assert url[i..][0] == url[i] && url[i..][j] == url[i + j];
  }

  lemma OpenIsNotClose()
    ensures OPEN != CLOSE
  {
  }

  lemma FoundAt(s: Bytes, b: byte)
    ensures IndexOf(s, b).Some? ==> IndexOf(s, b).value < |s| && s[IndexOf(s, b).value] == b
  {
  }

  lemma CountCut(url: Bytes, i: nat, j: nat, d: byte)
    requires 0 < j && i + j < |url| && url[i] == OPEN && url[i + j] == CLOSE && d != OPEN && d != CLOSE
    ensures multiset(url[..i + j + 1])[d] == multiset(url[..i])[d] + multiset(url[i + 1..i + j])[d]
    ensures multiset(url)[d] == multiset(url[..i + j + 1])[d] + multiset(url[i + j + 1..])[d]
  {
    hide *;
    assert url == url[..i + j + 1] + url[i + j + 1..];
    assert url[..i + j + 1] == url[..i] + [OPEN] + url[i + 1..i + j] + [CLOSE];
  }

  /** Arguments bring no `/`, `?`, `#` or `&` of their own: the URL has those of the template
      but for any in the names that were consumed. */
  lemma {:induction false} SubstituteAddsNone(url: Bytes, args: Args, d: byte)
    requires d in {SLASH, QUESTION, HASH, AMP}
    ensures multiset(Substitute(url, args).0)[d] + multiset(Flat(Substitute(url, args).1))[d] == multiset(url)[d]
    decreases |url|
  {
    NothingToDo(url, args);
    hide *;
    match IndexOf(url, OPEN)
    case None => FlatNone();
    case Some(i) =>
      match IndexOf(url[i..], CLOSE)
      case None => FlatNone();
      case Some(j) =>
        IsOther(d);
        SubstituteNext(url, args, i, j);
        CountCut(url, i, j, d);
        SubstituteAddsNone(url[i + j + 1..], args, d);
        FilledCounts(url, i, j, Lookup(args, url[i + 1..i + j]), Substitute(url[i + j + 1..], args), d);
  }

  lemma FlatNone()
    ensures Flat([]) == []
  {
  }

  lemma IsOther(d: byte)
    requires d in {SLASH, QUESTION, HASH, AMP}
    ensures d != OPEN && d != CLOSE
  {
  }

  lemma FilledCounts(url: Bytes, i: nat, j: nat, v: Option<Bytes>, rest: (Bytes, seq<Bytes>), d: byte)
    requires 0 < j && i + j < |url| && d in {SLASH, QUESTION, HASH, AMP}
    requires url[i] == OPEN && url[i + j] == CLOSE
    ensures var f := Filled(url, i, j, v, rest);
            multiset(f.0)[d] + multiset(Flat(f.1))[d] == multiset(url[..i + j + 1])[d] + multiset(rest.0)[d] + multiset(Flat(rest.1))[d]
  {
    CountCut(url, i, j, d);
    FilledIs(url, i, j, v, rest);
    FlatCounts(url[i + 1..i + j], rest.1, d);
    if v.Some? {
      InertCounts(v.value, d);
    }
    hide *;
  }

  lemma InertCounts(v: Bytes, d: byte)
    requires d in {SLASH, QUESTION, HASH, AMP}
    ensures multiset(Pct(v))[d] == 0
  {
    PctIsInert(v);
    InertHasNo(Pct(v));
    assert d in {47, 63, 35, 38, 61, PLUS, 123, 125};
    hide *;
    AbsentCounts(Pct(v), d);
  }

  lemma AbsentCounts(s: Bytes, d: byte)
    requires d !in s
    ensures multiset(s)[d] == 0
  {
  }

  lemma FlatCounts(key: Bytes, keys: seq<Bytes>, d: byte)
    ensures multiset(Flat([key] + keys))[d] == multiset(key)[d] + multiset(Flat(keys))[d]
  {
    assert ([key] + keys)[1..] == keys;
  }

  // --- what the query says --------------------------------------------------------------

  type Utf8 = Bytes -> bool

  function TextOf(s: Bytes, utf8: Utf8): Bytes {
    var d := Unpct(Spaces(s));
    if d.Some? && utf8(d.value) then d.value else []
  }

  function PairOf(kv: Bytes, utf8: Utf8): (Bytes, Bytes) {
    match IndexOf(kv, EQUALS)
    case None => (TextOf(kv, utf8), TextOf([], utf8))
    case Some(i) => (TextOf(kv[..i], utf8), TextOf(kv[i + 1..], utf8))
  }

  function PairsOf(parts: seq<Bytes>, utf8: Utf8): Args {
    if parts == [] then []
    else if parts[0] == [] then PairsOf(parts[1..], utf8)
    else [PairOf(parts[0], utf8)] + PairsOf(parts[1..], utf8)
  }

  /** `query_pairs`. */
  function QueryPairs(pq: Bytes, utf8: Utf8): Args {
    match IndexOf(pq, QUESTION)
    case None => []
    case Some(i) => PairsOf(SplitOn(pq[i + 1..], AMP), utf8)
  }

  ghost predicate Texts(list: Args, utf8: Utf8) {
    forall kv :: kv in list ==> utf8(kv.0) && utf8(kv.1)
  }

  lemma {:induction false} SplitConcat(a: Bytes, c: Bytes, b: byte)
    ensures SplitOn(a + [b] + c, b) == SplitOn(a, b) + SplitOn(c, b)
    decreases |a|
  {
    var s := a + [b] + c;
    match IndexOf(a, b)
    case None =>
      IndexAfter(a, [b] + c, b);
      assert s == a + ([b] + c);
      assert s[..|a|] == a && s[|a| + 1..] == c;
    case Some(i) =>
      IndexStays(a, [b] + c, b);
      assert s == a + ([b] + c);
      assert s[..i] == a[..i] && s[i + 1..] == a[i + 1..] + [b] + c;
      SplitConcat(a[i + 1..], c, b);
      assert [a[..i]] + (SplitOn(a[i + 1..], b) + SplitOn(c, b)) == SplitOn(a, b) + SplitOn(c, b);
  }

  lemma {:induction false} IndexStays(a: Bytes, c: Bytes, b: byte)
    requires IndexOf(a, b).Some?
    ensures IndexOf(a + c, b) == IndexOf(a, b)
  {
    if a[0] != b {
      assert (a + c)[1..] == a[1..] + c;
      IndexStays(a[1..], c, b);
    }
  }

  lemma {:induction false} PairsConcat(a: seq<Bytes>, c: seq<Bytes>, utf8: Utf8)
    ensures PairsOf(a + c, utf8) == PairsOf(a, utf8) + PairsOf(c, utf8)
  {
    if a == [] {
      assert a + c == c;
    } else {
      assert (a + c)[1..] == a[1..] + c;
      PairsConcat(a[1..], c, utf8);
    }
  }

  /** A pair's text is read back as the pair. */
  lemma PairReadsBack(kv: (Bytes, Bytes), utf8: Utf8)
    requires utf8(kv.0) && utf8(kv.1)
    ensures PairText(kv) != [] && AMP !in PairText(kv)
    ensures PairOf(PairText(kv), utf8) == kv
  {
    hide Pct, TextOf, IndexOf;
    var k, v := Pct(kv.0), Pct(kv.1);
    PctIsInert(kv.0);
    PctIsInert(kv.1);
    InertHasNo(k);
    InertHasNo(v);
    NotIn(k, EQUALS);
    IndexAfter(k, [EQUALS] + v, EQUALS);
    var t := PairText(kv);
    assert t == k + ([EQUALS] + v);
    StartsWith(EQUALS, v);
    assert t[..|k|] == k && t[|k| + 1..] == v;
    TextReadsBack(kv.0, utf8);
    TextReadsBack(kv.1, utf8);
  }

  lemma StartsWith(b: byte, s: Bytes)
    ensures IndexOf([b] + s, b) == Some(0)
  {
  }

  lemma TextReadsBack(s: Bytes, utf8: Utf8)
    requires utf8(s)
    ensures TextOf(Pct(s), utf8) == s
  {
    PctIsInert(s);
    SpacesLeaveInert(Pct(s));
    UnpctUndoesPct(s);
  }

  /** Pairs joined by ampersands are read back as the pairs, after whatever stands before. */
  lemma {:induction false} PairsReadBack(a: Bytes, list: Args, utf8: Utf8)
    requires Texts(list, utf8)
    ensures PairsOf(SplitOn(a + Tail(list), AMP), utf8) == PairsOf(SplitOn(a, AMP), utf8) + list
    decreases |list|
  {
    hide PairText, PairOf, SplitOn, Pct;
    if list == [] {
      assert a + Tail(list) == a;
    } else {
      var t := PairText(list[0]);
      assert a + Tail(list) == a + [AMP] + t + Tail(list[1..]);
      assert list[0] in list && forall kv :: kv in list[1..] ==> kv in list;
      PairsReadBack(a + [AMP] + t, list[1..], utf8);
      SplitConcat(a, t, AMP);
      OnePart(list[0], utf8);
      PairsConcat(SplitOn(a, AMP), SplitOn(t, AMP), utf8);
      assert [list[0]] + list[1..] == list;
    }
  }

  lemma OnePart(kv: (Bytes, Bytes), utf8: Utf8)
    requires utf8(kv.0) && utf8(kv.1)
    ensures PairsOf(SplitOn(PairText(kv), AMP), utf8) == [kv]
  {
    hide PairText, PairOf;
    PairReadsBack(kv, utf8);
    assert SplitOn(PairText(kv), AMP) == [PairText(kv)];
    assert [PairText(kv)][1..] == [];
  }

  /** What the endpoint reads is what the URL said before, and then just the arguments left
      over, each as it was. */
  lemma LeftoversReadBack(url: Bytes, list: Args, utf8: Utf8)
    requires Texts(list, utf8)
    ensures QueryPairs(url + QueryText(url, list), utf8) == QueryPairs(url, utf8) + list
  {
    if list == [] {
      assert url + QueryText(url, list) == url;
    } else if IndexOf(url, QUESTION).Some? {
      AfterAQuery(url, list, utf8);
    } else {
      AsTheQuery(url, list, utf8);
    }
  }

  lemma DropFromFirst(a: Bytes, b: Bytes, n: nat)
    requires n <= |a|
    ensures (a + b)[n..] == a[n..] + b
  {
  }

  lemma AfterAQuery(url: Bytes, list: Args, utf8: Utf8)
    requires Texts(list, utf8) && list != [] && IndexOf(url, QUESTION).Some?
    ensures QueryPairs(url + QueryText(url, list), utf8) == QueryPairs(url, utf8) + list
  {
    hide PairText, Pct, PairsOf, SplitOn, IndexOf;
    var i := IndexOf(url, QUESTION).value;
    IndexStays(url, QueryText(url, list), QUESTION);
    assert QueryText(url, list) == Tail(list);
    hide Tail, QueryText;
    DropFromFirst(url, Tail(list), i + 1);
    PairsReadBack(url[i + 1..], list, utf8);
  }

  lemma AsTheQuery(url: Bytes, list: Args, utf8: Utf8)
    requires Texts(list, utf8) && list != [] && IndexOf(url, QUESTION).None?
    ensures QueryPairs(url + QueryText(url, list), utf8) == list
  {
    hide PairText, Pct, PairsOf, SplitOn, IndexOf, QueryText, Tail;
    QueryStartsHere(url, list);
    assert list[0] in list && forall kv :: kv in list[1..] ==> kv in list;
    PairsReadBack(PairText(list[0]), list[1..], utf8);
    OnePart(list[0], utf8);
    assert [list[0]] + list[1..] == list;
  }

  lemma QueryStartsHere(url: Bytes, list: Args)
    requires list != [] && IndexOf(url, QUESTION).None?
    ensures var whole := url + QueryText(url, list);
            IndexOf(whole, QUESTION) == Some(|url|) && whole[|url| + 1..] == PairText(list[0]) + Tail(list[1..])
  {
    QueryIs(url, list);
    hide *;
    MarkThenText(url, PairText(list[0]) + Tail(list[1..]));
  }

  lemma QueryIs(url: Bytes, list: Args)
    requires list != [] && IndexOf(url, QUESTION).None?
    ensures QueryText(url, list) == [QUESTION] + (PairText(list[0]) + Tail(list[1..]))
  {
    hide PairText, Tail;
    assert QUESTION !in url;
    Regroup([QUESTION], PairText(list[0]), Tail(list[1..]));
  }

  lemma MarkThenText(url: Bytes, t: Bytes)
    requires IndexOf(url, QUESTION).None?
    ensures var whole := url + ([QUESTION] + t);
            IndexOf(whole, QUESTION) == Some(|url|) && whole[|url| + 1..] == t
  {
    var q := [QUESTION] + t;
    assert IndexOf(q, QUESTION) == Some(0);
    hide *;
    IndexAfter(url, q, QUESTION);
    assert (url + q)[|url| + 1..] == q[1..] == t;
  }

  function BeforeHash(url: Bytes): Bytes {
    match IndexOf(url, HASH)
    case None => url
    case Some(i) => url[..i]
  }

  /** A query ends where a fragment begins (section 3.4 of RFC 3986), and the arguments are put
      at the very end: they are in the query exactly when the URL has no fragment before. */
  lemma LeftoversReachIff(url: Bytes, list: Args, utf8: Utf8)
    requires Texts(list, utf8) && list != []
    ensures QueryPairs(BeforeHash(url + QueryText(url, list)), utf8) == QueryPairs(BeforeHash(url), utf8) + list
       <==> HASH !in url
  {
    if HASH in url {
      IndexStays(url, QueryText(url, list), HASH);
      assert BeforeHash(url + QueryText(url, list)) == BeforeHash(url);
    } else {
      QueryHasNoHash(url, list);
      assert HASH !in url + QueryText(url, list);
      LeftoversReadBack(url, list, utf8);
    }
  }

  /** That is, exactly when each `#` of the template is in the name of a placeholder that an argument
      fills. */
  lemma LeftoversReachTheQueryIff(template: Bytes, args: Args, list: Args, utf8: Utf8)
    requires Texts(list, utf8) && list != []
    ensures var (url, used) := Substitute(template, args);
            QueryPairs(BeforeHash(url + QueryText(url, list)), utf8) == QueryPairs(BeforeHash(url), utf8) + list
            <==> multiset(template)[HASH] == multiset(Flat(used))[HASH]
  {
    hide *;
    var (url, used) := Substitute(template, args);
    LeftoversReachIff(url, list, utf8);
    SubstituteAddsNone(template, args, HASH);
    assert HASH in url <==> multiset(url)[HASH] > 0;
  }

  lemma {:induction false} TailHasNoHash(list: Args)
    ensures HASH !in Tail(list)
  {
    if list != [] {
      PctIsInert(list[0].0);
      PctIsInert(list[0].1);
      InertHasNo(Pct(list[0].0));
      InertHasNo(Pct(list[0].1));
      TailHasNoHash(list[1..]);
    }
  }

  lemma QueryHasNoHash(url: Bytes, list: Args)
    ensures HASH !in QueryText(url, list)
  {
    if list != [] {
      TailHasNoHash(list);
      TailHasNoHash(list[1..]);
      assert Tail(list) == [AMP] + PairText(list[0]) + Tail(list[1..]);
      assert forall b :: b in PairText(list[0]) ==> b in Tail(list);
    }
  }

  // --- the code -------------------------------------------------------------------------

  /** The loop of `substitute`. */
  method Substituted(url: Bytes, args: Args) returns (out: Bytes, used: seq<Bytes>)
    ensures (out, used) == Substitute(url, args)
  {
    hide *;
    out, used := [], [];
    var rest := url;
    assert [] + Substitute(url, args).0 == Substitute(url, args).0 && [] + Substitute(url, args).1 == Substitute(url, args).1;
    while true
      invariant out + Substitute(rest, args).0 == Substitute(url, args).0
      invariant used + Substitute(rest, args).1 == Substitute(url, args).1
      decreases |rest|
    {
      var open := IndexOf(rest, OPEN);
      if open.None? {
        NothingToDo(rest, args);
        break;
      }
      var i := open.value;
      var close := IndexOf(rest[i..], CLOSE);
      if close.None? {
        NothingToDo(rest, args);
        break;
      }
      var j := close.value;
      SubstituteNext(rest, args, i, j);
      var key := rest[i + 1..i + j];
      var v := Lookup(args, key);
      ghost var more := Substitute(rest[i + j + 1..], args);
      FilledIs(rest, i, j, v, more);
      if v.Some? {
        var text := Encoded(v.value);
        Regroup(out, rest[..i] + text, more.0);
        assert used + ([key] + more.1) == used + [key] + more.1;
        out := out + (rest[..i] + text);
        used := used + [key];
      } else {
        Regroup(out, rest[..i + j + 1], more.0);
        out := out + rest[..i + j + 1];
      }
      rest := rest[i + j + 1..];
    }
    out := out + rest;
    assert used + [] == used;
  }

  lemma NothingToDo(url: Bytes, args: Args)
    ensures IndexOf(url, OPEN) == None || IndexOf(url[IndexOf(url, OPEN).value..], CLOSE) == None ==>
              Substitute(url, args) == (url, [])
  {
  }

  /** The loop of `plan` that writes the query. */
  method WriteQuery(url: Bytes, list: Args) returns (q: Bytes)
    ensures q == QueryText(url, list)
  {
    hide Pct;
    q := [];
    for i := 0 to |list|
      invariant i == 0 ==> q == []
      invariant i > 0 ==> |q| > 1 && q + Tail(list[i..]) == QueryText(url, list)
    {
      var mark := if q == [] then QUESTION else AMP;
      if q == [] && QUESTION in url {
        mark := AMP;
      }
      assert list[i..][0] == list[i] && list[i..][1..] == list[i + 1..];
      var k := Encoded(list[i].0);
      var v := Encoded(list[i].1);
      var text := [mark] + (k + [EQUALS] + v);
      assert i > 0 ==> q + (text + Tail(list[i + 1..])) == q + text + Tail(list[i + 1..]);
      assert i == 0 ==> [] + text == text;
      q := q + text;
    }
    assert q + [] == q;
  }

  datatype Refusal = NotAbsolute | PlaceholderInHost | HostChanged

  /** The URL part of `plan`. The second guard never fires; what is planned goes to the host of
      the expanded template, whatever the arguments are. */
  method PlanUrl(base: Bytes, args: Args, asQuery: bool, reserved: set<Bytes>) returns (r: Result<Bytes, Refusal>)
    ensures r.Ok? <==> Absolute(base) && OPEN !in AuthorityOf(base)
    ensures r.Err? ==> r.error == if Absolute(base) then PlaceholderInHost else NotAbsolute
    ensures r.Ok? ==> AuthorityOf(r.value) == AuthorityOf(base)
    ensures r.Ok? ==> var (url, used) := Substitute(base, args);
                      r.value == if asQuery then url + QueryText(url, Leftovers(args, used, reserved)) else url
  {
    hide AuthorityOf, Substitute, QueryText;
    if !Absolute(base) {
      return Err(NotAbsolute);
    }
    if OPEN in AuthorityOf(base) {
      return Err(PlaceholderInHost);
    }
    var url, used := Substituted(base, args);
    SubstituteKeepsAuthority(base, args);
    if AuthorityOf(url) != AuthorityOf(base) {
      return Err(HostChanged);
    }
    if asQuery {
      var list := Leftovers(args, used, reserved);
      QueryKeepsAuthority(url, list);
      var q := WriteQuery(url, list);
      url := url + q;
    }
    return Ok(url);
  }

  lemma QueryKeepsAuthority(url: Bytes, list: Args)
    requires Absolute(url)
    ensures AuthorityOf(url + QueryText(url, list)) == AuthorityOf(url)
  {
    var n := SchemeLength(url);
    AuthorityIs(url);
    if QUESTION in url {
      assert url == url[..n] + url[n..];
      assert QUESTION in url[n..];
      UpToEndIsPrefix(url[n..]);
    }
    AuthorityStays(url, QueryText(url, list));
  }
}
