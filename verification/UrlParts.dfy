/** URL templates by their parts: what fills each hole, and where every argument goes. The parts are
    the definition `UrlTemplate` is held against. */
module UrlParts {
  import opened Common
  import opened ByteText
  import opened Percent
  import opened UrlTemplate

  /** A text without a hole, and the name of the hole behind it. */
  datatype Part = Part(text: Bytes, key: Bytes)

  predicate Proper(parts: seq<Part>) {
    forall p :: p in parts ==> OPEN !in p.text && CLOSE !in p.key
  }

  /** No hole: nothing opens, or nothing closes behind the first that does. */
  predicate NoHole(s: Bytes) {
    forall i, j :: 0 <= i < j < |s| ==> s[i] != OPEN || s[j] != CLOSE
  }

  /** The template of such parts, and of what comes behind them. */
  function Template(parts: seq<Part>, tail: Bytes): Bytes {
    if parts == [] then tail else parts[0].text + [OPEN] + parts[0].key + [CLOSE] + Template(parts[1..], tail)
  }

  /** The arguments are those of a JSON object: no name twice. */
  predicate NoNameTwice(args: Args) {
    forall i, j :: 0 <= i < j < |args| ==> args[i].0 != args[j].0
  }

  predicate Has(args: Args, key: Bytes) {
    exists i :: 0 <= i < |args| && args[i].0 == key
  }

  predicate IsKey(parts: seq<Part>, key: Bytes) {
    exists n :: 0 <= n < |parts| && parts[n].key == key
  }

  /** What the URL of such parts has to be: in the place of each hole the argument of its name,
      encoded, or, if there is none, the hole. */
  ghost predicate FilledFrom(parts: seq<Part>, tail: Bytes, args: Args, url: Bytes)
    decreases |parts|
  {
    if parts == [] then url == tail
    else
      var p := parts[0];
      exists filled, rest ::
        && url == p.text + filled + rest && FilledFrom(parts[1..], tail, args, rest)
        && if Has(args, p.key) then exists i :: 0 <= i < |args| && args[i].0 == p.key && Unpct(filled) == Some(args[i].1) && Inert(filled)
           else filled == [OPEN] + p.key + [CLOSE]
  }

  lemma {:induction false} LookupFinds(args: Args, key: Bytes)
    ensures Lookup(args, key).Some? <==> Has(args, key)
    ensures Lookup(args, key).Some? ==> (key, Lookup(args, key).value) in args
  {
    if args != [] {
      LookupFinds(args[1..], key);
      forall i | 0 < i < |args| ensures args[i] == args[1..][i - 1] {}
      if Has(args[1..], key) {
        var i :| 0 <= i < |args[1..]| && args[1..][i].0 == key;
        assert args[i + 1].0 == key;
      }
      assert args[0] == (args[0].0, args[0].1);
    }
  }

  lemma {:induction false} FirstOpen(text: Bytes, rest: Bytes)
    requires OPEN !in text
    ensures IndexOf(text + [OPEN] + rest, OPEN) == Some(|text|)
  {
    if text == [] {
      assert text + [OPEN] + rest == [OPEN] + rest;
    } else {
      assert text[0] in text && (text + [OPEN] + rest)[1..] == text[1..] + [OPEN] + rest;
      FirstOpen(text[1..], rest);
    }
  }

  lemma {:induction false} FirstClose(key: Bytes, rest: Bytes)
    requires CLOSE !in key
    ensures IndexOf(key + [CLOSE] + rest, CLOSE) == Some(|key|)
  {
    if key == [] {
      assert key + [CLOSE] + rest == [CLOSE] + rest;
    } else {
      assert key[0] in key && (key + [CLOSE] + rest)[1..] == key[1..] + [CLOSE] + rest;
      FirstClose(key[1..], rest);
    }
  }

  lemma PartSlices(p: Part, rest: Bytes)
    ensures var url, i, j := p.text + [OPEN] + p.key + [CLOSE] + rest, |p.text|, |p.key| + 1;
            && i + j < |url| && url[..i] == p.text && url[i + 1..i + j] == p.key && url[i + j + 1..] == rest
            && url == p.text + [OPEN] + (p.key + [CLOSE] + rest) && url[i..] == [OPEN] + p.key + [CLOSE] + rest
            && url[..i + j + 1] == p.text + ([OPEN] + p.key + [CLOSE])
  {
    var url, i, j := p.text + [OPEN] + p.key + [CLOSE] + rest, |p.text|, |p.key| + 1;
    var head := p.text + ([OPEN] + p.key + [CLOSE]);
    assert url == head + rest && |head| == i + j + 1;
    assert url == p.text + ([OPEN] + p.key + [CLOSE] + rest);
  }

  lemma BracesOfPart(p: Part, rest: Bytes)
    requires OPEN !in p.text && CLOSE !in p.key
    ensures Braces(p.text + [OPEN] + p.key + [CLOSE] + rest) == Some((|p.text|, |p.key| + 1))
  {
    PartSlices(p, rest);
    FirstOpen(p.text, p.key + [CLOSE] + rest);
    FirstClose([OPEN] + p.key, rest);
    hide *;
    BracesFrom(p.text + [OPEN] + p.key + [CLOSE] + rest, |p.text|, |p.key| + 1);
  }

  lemma BracesFrom(url: Bytes, i: nat, j: nat)
    requires IndexOf(url, OPEN) == Some(i) && IndexOf(url[i..], CLOSE) == Some(j)
    ensures Braces(url) == Some((i, j))
  {
    hide IndexOf;
  }

  lemma BracesAreBraces(s: Bytes)
    requires Braces(s).Some?
    ensures var (i, j) := Braces(s).value; 0 <= i < i + j < |s| && s[i] == OPEN && s[i + j] == CLOSE
  {
    var i := IndexOf(s, OPEN).value;
    BracesAt(s, i, IndexOf(s[i..], CLOSE).value);
  }

  lemma NoBraces(s: Bytes)
    requires NoHole(s)
    ensures Braces(s).None?
  {
    hide Braces;
    if Braces(s).Some? {
      BracesAreBraces(s);
    }
  }

  /** Every template is of parts. */
  lemma {:induction false} EveryTemplateHasParts(url: Bytes) returns (parts: seq<Part>, tail: Bytes)
    ensures Proper(parts) && NoHole(tail) && url == Template(parts, tail)
    decreases |url|
  {
    hide *;
    match Braces(url)
    case None =>
      NoPart(url);
      parts, tail := [], url;
    case Some((i, j)) =>
      FirstPart(url, i, j);
      var more, end := EveryTemplateHasParts(url[i + j + 1..]);
      parts, tail := [Part(url[..i], url[i + 1..i + j])] + more, end;
      OnePartMore(url, i, j, more, tail);
      StaysProper(parts[0], more);
  }

  lemma NoPart(url: Bytes)
    requires Braces(url).None?
    ensures Proper([]) && NoHole(url) && url == Template([], url)
  {
    var i := IndexOf(url, OPEN);
    if i.None? {
      NoOpen(url);
    } else {
      NoClose(url, i.value);
    }
  }

  lemma FirstPart(url: Bytes, i: nat, j: nat)
    requires Braces(url) == Some((i, j))
    ensures 0 < j && i + j < |url| && url[i] == OPEN && url[i + j] == CLOSE
    ensures OPEN !in url[..i] && CLOSE !in url[i + 1..i + j]
  {
    BracesAt(url, i, j);
    KeyIsOpen(url, i, j);
  }

  lemma StaysProper(p: Part, more: seq<Part>)
    requires OPEN !in p.text && CLOSE !in p.key && Proper(more)
    ensures Proper([p] + more)
  {
  }

  lemma OnePartMore(url: Bytes, i: nat, j: nat, more: seq<Part>, tail: Bytes)
    requires 0 < j && i + j < |url| && url[i] == OPEN && url[i + j] == CLOSE && url[i + j + 1..] == Template(more, tail)
    ensures url == Template([Part(url[..i], url[i + 1..i + j])] + more, tail)
  {
    var parts := [Part(url[..i], url[i + 1..i + j])] + more;
    assert parts[1..] == more;
    hide Template;
    var head := url[..i + j + 1];
    assert url == head + url[i + j + 1..];
    assert head == url[..i] + [url[i]] + url[i + 1..i + j] + [url[i + j]];
    TemplateNext(parts, tail);
  }

  lemma NoOpen(s: Bytes)
    requires OPEN !in s
    ensures NoHole(s)
  {
  }

  lemma NoClose(s: Bytes, i: nat)
    requires i < |s| && OPEN !in s[..i] && CLOSE !in s[i..]
    ensures NoHole(s)
  {
    forall a, b | 0 <= a < b < |s| ensures s[a] != OPEN || s[b] != CLOSE {
      if a < i {
        assert s[a] == s[..i][a];
      } else {
        assert s[b] == s[i..][b - i];
      }
    }
  }

  lemma KeyIsOpen(url: Bytes, i: nat, j: nat)
    requires i + j < |url| && 0 < j && CLOSE !in url[i..][..j]
    ensures CLOSE !in url[i + 1..i + j]
  {
    forall k | i + 1 <= k < i + j ensures url[k] != CLOSE {
      assert url[k] == url[i..][..j][k - i];
    }
  }

  /** What is substituted is the argument of that name, and the names consumed are those of the holes
      that have one. */
  lemma {:induction false} HolesAreFilled(parts: seq<Part>, tail: Bytes, args: Args)
    requires Proper(parts) && NoHole(tail) && NoNameTwice(args)
    ensures var (url, used) := Substitute(Template(parts, tail), args);
            && FilledFrom(parts, tail, args, url)
            && forall k :: k in used <==> Has(args, k) && IsKey(parts, k)
    decreases |parts|
  {
    if parts == [] {
      NoBraces(tail);
    } else {
      var p, rest := parts[0], Template(parts[1..], tail);
      assert p in parts && forall q :: q in parts[1..] ==> q in parts;
      BracesOfPart(p, rest);
      HolesAreFilled(parts[1..], tail, args);
      LookupFinds(args, p.key);
      hide Substitute, Lookup, FilledFrom, Braces;
      OneIsFilled(parts, tail, args);
    }
  }

  /** What one part becomes. */
  function OneFilled(key: Bytes, args: Args): Bytes {
    var v := Lookup(args, key);
    if v.Some? then Pct(v.value) else [OPEN] + key + [CLOSE]
  }

  lemma OneSubstituted(p: Part, rest: Bytes, args: Args)
    requires OPEN !in p.text && CLOSE !in p.key
    ensures var (url, used) := Substitute(rest, args);
            Substitute(p.text + [OPEN] + p.key + [CLOSE] + rest, args)
            == (p.text + OneFilled(p.key, args) + url, (if Has(args, p.key) then [p.key] else []) + used)
  {
    hide *;
    var whole, i, j := p.text + [OPEN] + p.key + [CLOSE] + rest, |p.text|, |p.key| + 1;
    BracesOfPart(p, rest);
    PartSlices(p, rest);
    LookupFinds(args, p.key);
    SubstituteAt(whole, args, i, j);
    FilledAsOne(whole, i, j, p.text, p.key, args, Substitute(rest, args));
  }

  lemma FilledAsOne(whole: Bytes, i: nat, j: nat, text: Bytes, key: Bytes, args: Args, rest: (Bytes, seq<Bytes>))
    requires 0 < j && i + j < |whole| && whole[..i] == text && whole[i + 1..i + j] == key
    requires whole[..i + j + 1] == text + ([OPEN] + key + [CLOSE]) && (Lookup(args, key).Some? <==> Has(args, key))
    ensures Filled(whole, i, j, Lookup(args, key), rest)
         == (text + OneFilled(key, args) + rest.0, (if Has(args, key) then [key] else []) + rest.1)
  {
    hide Pct, Lookup, Has;
    assert [] + rest.1 == rest.1;
  }

  lemma OneFilledIs(key: Bytes, args: Args)
    ensures var filled := OneFilled(key, args);
            if Has(args, key) then exists i :: 0 <= i < |args| && args[i].0 == key && Unpct(filled) == Some(args[i].1) && Inert(filled)
            else filled == [OPEN] + key + [CLOSE]
  {
    LookupFinds(args, key);
    var v := Lookup(args, key);
    hide Pct, Unpct, Lookup, Inert;
    if v.Some? {
      UnpctUndoesPct(v.value);
      PctIsInert(v.value);
      var i :| 0 <= i < |args| && args[i] == (key, v.value);
    }
  }

  lemma OneIsFilled(parts: seq<Part>, tail: Bytes, args: Args)
    requires parts != [] && OPEN !in parts[0].text && CLOSE !in parts[0].key
    requires var (url, used) := Substitute(Template(parts[1..], tail), args);
             && FilledFrom(parts[1..], tail, args, url)
             && forall k :: k in used <==> Has(args, k) && IsKey(parts[1..], k)
    ensures var (url, used) := Substitute(Template(parts, tail), args);
            && FilledFrom(parts, tail, args, url)
            && forall k :: k in used <==> Has(args, k) && IsKey(parts, k)
  {
    hide *;
    var p := parts[0];
    OneSubstituted(p, Template(parts[1..], tail), args);
    var (url, used) := Substitute(Template(parts[1..], tail), args);
    NamesUsed(parts, args, used);
    TemplateNext(parts, tail);
    FilledOn(parts, tail, args, url);
  }

  lemma TemplateNext(parts: seq<Part>, tail: Bytes)
    requires parts != []
    ensures Template(parts, tail) == parts[0].text + [OPEN] + parts[0].key + [CLOSE] + Template(parts[1..], tail)
  {
  }

  lemma FilledOn(parts: seq<Part>, tail: Bytes, args: Args, rest: Bytes)
    requires parts != [] && FilledFrom(parts[1..], tail, args, rest)
    ensures FilledFrom(parts, tail, args, parts[0].text + OneFilled(parts[0].key, args) + rest)
  {
    hide OneFilled, Has, Unpct, Inert;
    OneFilledIs(parts[0].key, args);
  }

  lemma NamesUsed(parts: seq<Part>, args: Args, used: seq<Bytes>)
    requires parts != []
    requires forall k :: k in used <==> Has(args, k) && IsKey(parts[1..], k)
    ensures var all := (if Has(args, parts[0].key) then [parts[0].key] else []) + used;
            forall k :: k in all <==> Has(args, k) && IsKey(parts, k)
  {
    hide Has;
    forall k ensures IsKey(parts, k) <==> parts[0].key == k || IsKey(parts[1..], k) {
      if n :| 0 <= n < |parts[1..]| && parts[1..][n].key == k {
        assert parts[n + 1].key == k;
      }
      if n :| 0 <= n < |parts| && parts[n].key == k && n > 0 {
        assert parts[1..][n - 1].key == k;
      }
    }
  }

  // --- what is left over ------------------------------------------------------------------

  /** One after another, each argument is left over unless it was used or is reserved. */
  lemma {:induction false} LeftoversAre(a: Args, b: Args, used: seq<Bytes>, reserved: set<Bytes>)
    ensures Leftovers(a + b, used, reserved) == Leftovers(a, used, reserved) + Leftovers(b, used, reserved)
    ensures forall kv :: Leftovers([kv], used, reserved) == if kv.0 !in used && kv.0 !in reserved then [kv] else []
  {
    if a == [] {
      assert a + b == b;
    } else {
      assert (a + b)[1..] == a[1..] + b;
      LeftoversAre(a[1..], b, used, reserved);
    }
    forall kv ensures Leftovers([kv], used, reserved) == if kv.0 !in used && kv.0 !in reserved then [kv] else [] {
      assert [kv][1..] == [];
    }
  }

  /** So every argument that is not reserved goes into the URL in one way and no other: it fills the
      holes of its name, or it is a pair of the query. */
  lemma EveryArgumentGoesOnce(parts: seq<Part>, tail: Bytes, args: Args, reserved: set<Bytes>, kv: (Bytes, Bytes))
    requires Proper(parts) && NoHole(tail) && NoNameTwice(args) && kv in args && kv.0 !in reserved
    ensures var used := Substitute(Template(parts, tail), args).1;
            kv in Leftovers(args, used, reserved) <==> !IsKey(parts, kv.0)
  {
    HolesAreFilled(parts, tail, args);
    var used := Substitute(Template(parts, tail), args).1;
    hide Substitute, Template, FilledFrom;
    var i :| 0 <= i < |args| && args[i] == kv;
    assert Has(args, kv.0);
    LeftoverIff(args, used, reserved, kv);
  }

  lemma {:induction false} LeftoverIff(args: Args, used: seq<Bytes>, reserved: set<Bytes>, kv: (Bytes, Bytes))
    ensures kv in Leftovers(args, used, reserved) <==> kv in args && kv.0 !in used && kv.0 !in reserved
  {
    if args != [] {
      LeftoverIff(args[1..], used, reserved, kv);
      assert args == [args[0]] + args[1..];
    }
  }

  // --- the host ---------------------------------------------------------------------------

  /** The authority is what stands between the scheme and the first `/`, `?` or `#`. */
  lemma AuthorityIsBetween(scheme: Bytes, host: Bytes, rest: Bytes)
    requires scheme == HTTP || scheme == HTTPS
    requires SLASH !in host && QUESTION !in host && HASH !in host
    requires rest != [] ==> rest[0] == SLASH || rest[0] == QUESTION || rest[0] == HASH
    ensures Absolute(scheme + host + rest) && AuthorityOf(scheme + host + rest) == host
  {
    var url := scheme + host + rest;
    AbsoluteIs(scheme, host + rest);
    assert url == scheme + (host + rest);
    AuthorityIs(url);
    assert url[|scheme|..] == host + rest;
    UpToEndIs(host, rest);
  }

  lemma AbsoluteIs(scheme: Bytes, more: Bytes)
    requires scheme == HTTP || scheme == HTTPS
    ensures Absolute(scheme + more) && SchemeLength(scheme + more) == |scheme|
  {
    var url := scheme + more;
    assert url[..|scheme|] == scheme;
    if scheme == HTTPS {
      assert url[4] == 115;
    }
  }

  lemma {:induction false} UpToEndIs(host: Bytes, rest: Bytes)
    requires SLASH !in host && QUESTION !in host && HASH !in host
    requires rest != [] ==> rest[0] == SLASH || rest[0] == QUESTION || rest[0] == HASH
    ensures UpToEnd(host + rest) == host
  {
    if host == [] {
      assert host + rest == rest;
    } else {
      assert host[0] in host && (host + rest)[1..] == host[1..] + rest;
      UpToEndIs(host[1..], rest);
    }
  }
}
