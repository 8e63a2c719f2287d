/** depot/src/git/mod.rs, `valid_refname`: which names it lets pass, part by part, as git's
    check-ref-format tells it. */
module RefNames {
  import opened Git
  import opened Utf8

  /** No such two characters in a row. */
  predicate NoPair(s: string, a: char, b: char) {
    forall i :: 0 < i < |s| ==> s[i - 1] != a || s[i] != b
  }

  predicate Allowed(c: char) {
    ' ' < c && c as int != 127 && c != '/' && c != '~' && c != '^' && c != ':' && c != '?' && c != '*' && c != '[' && c != '\\'
  }

  predicate IsPart(s: string) {
    && s != "" && s[0] != '.' && (|s| < 5 || s[|s| - 5..] != ".lock")
    && (forall c :: c in s ==> Allowed(c)) && NoPair(s, '.', '.') && NoPair(s, '@', '{')
  }

  /** Each part behind a slash. */
  function Slashed(parts: seq<string>): string {
    if parts == [] then "" else "/" + parts[0] + Slashed(parts[1..])
  }

  predicate IsRefname(name: string, parts: seq<string>) {
    && parts != [] && name == "refs" + Slashed(parts) && ByteLen(name) <= 1024
    && (forall p :: p in parts ==> IsPart(p))
    && var last := parts[|parts| - 1]; last != "" && last[|last| - 1] != '.'
  }

  // --- pairs ----------------------------------------------------------------------------

  lemma PairIff(s: string, a: char, b: char)
    ensures NoPair(s, a, b) <==> !Contains(s, [a, b])
  {
    forall i: nat ensures i <= |s| && HasAt(s, [a, b], i) <==> i + 2 <= |s| && s[i] == a && s[i + 1] == b {
      if i + 2 <= |s| {
        assert s[i..i + 2] == [s[i], s[i + 1]];
      }
    }
    if Contains(s, [a, b]) {
      var i: nat :| i <= |s| && HasAt(s, [a, b], i);
      assert s[i + 1 - 1] == a && s[i + 1] == b;
    }
    if !NoPair(s, a, b) {
      var i :| 0 < i < |s| && s[i - 1] == a && s[i] == b;
      assert HasAt(s, [a, b], i - 1);
    }
  }

  lemma PairsJoin(s: string, t: string, a: char, b: char)
    ensures NoPair(s + t, a, b) <==> NoPair(s, a, b) && NoPair(t, a, b) && (s == "" || t == "" || s[|s| - 1] != a || t[0] != b)
  {
    var u := s + t;
    if NoPair(s, a, b) && NoPair(t, a, b) && (s == "" || t == "" || s[|s| - 1] != a || t[0] != b) {
      forall i | 0 < i < |u| ensures u[i - 1] != a || u[i] != b {
        if i > |s| {
          assert u[i - 1] == t[i - |s| - 1] && u[i] == t[i - |s|];
        }
      }
    }
    if NoPair(u, a, b) {
      if s != "" && t != "" {
        assert u[|s| - 1] == s[|s| - 1] && u[|s|] == t[0];
      }
      forall i | 0 < i < |s| ensures s[i - 1] != a || s[i] != b {
        assert u[i - 1] != a || u[i] != b;
      }
      forall i | 0 < i < |t| ensures t[i - 1] != a || t[i] != b {
        assert u[|s| + i - 1] != a || u[|s| + i] != b;
      }
    }
  }

  /** Slashed parts have a pair just where a part has it, if it is not of slashes. */
  lemma {:induction false} PairsOfParts(parts: seq<string>, a: char, b: char)
    requires a != '/' && b != '/'
    ensures NoPair(Slashed(parts), a, b) <==> forall p :: p in parts ==> NoPair(p, a, b)
    decreases |parts|
  {
    if parts != [] {
      var p, rest := parts[0], parts[1..];
      PairsOfParts(rest, a, b);
      PairsJoin("/", p, a, b);
      PairsJoin("/" + p, Slashed(rest), a, b);
      assert Slashed(rest) == "" || Slashed(rest)[0] == '/';
      assert forall q :: q in parts <==> q == p || q in rest;
    }
  }

  lemma {:induction false} NoTwoSlashes(parts: seq<string>)
    requires forall p :: p in parts ==> p != "" && '/' !in p
    ensures NoPair(Slashed(parts), '/', '/') && (parts != [] ==> Slashed(parts)[|Slashed(parts)| - 1] != '/')
    decreases |parts|
  {
    if parts != [] {
      var p, rest := parts[0], parts[1..];
      assert p in parts && forall q :: q in rest ==> q in parts;
      NoTwoSlashes(rest);
      assert p[0] in p && p[|p| - 1] in p;
      NoSlash(p);
      PairsJoin("/", p, '/', '/');
      PairsJoin("/" + p, Slashed(rest), '/', '/');
      assert rest == [] ==> Slashed(parts) == "/" + p;
    }
  }

  lemma NoSlash(p: string)
    requires '/' !in p
    ensures NoPair(p, '/', '/')
  {
    forall i | 0 < i < |p| ensures p[i] != '/' {
      assert p[i] in p;
    }
  }

  // --- characters, and the end ----------------------------------------------------------

  lemma {:induction false} CharsOfParts(parts: seq<string>)
    requires forall p :: p in parts ==> '/' !in p
    ensures (forall c :: c in Slashed(parts) ==> PlainChar(c)) <==> forall p, c :: p in parts && c in p ==> Allowed(c)
    decreases |parts|
  {
    if parts != [] {
      var p, rest := parts[0], parts[1..];
      assert p in parts && forall q :: q in parts <==> q == p || q in rest;
      CharsOfParts(rest);
      assert forall c :: c in Slashed(parts) <==> c == '/' || c in p || c in Slashed(rest);
      AllowedIff();
    }
  }

  lemma AllowedIff()
    ensures PlainChar('/') && forall c :: c != '/' ==> (PlainChar(c) <==> Allowed(c))
  {
    forall c | c != '/' ensures PlainChar(c) <==> Allowed(c) {
      assert " ~^:?*[\\" == [' ', '~', '^', ':', '?', '*', '[', '\\'];
    }
  }

  lemma LastOf(a: string, b: string)
    requires a != ""
    ensures (a + b)[|a + b| - 1] == if b == "" then a[|a| - 1] else b[|b| - 1]
  {
  }

  lemma {:induction false} EndOfParts(parts: seq<string>)
    requires parts != [] && forall p :: p in parts ==> p != ""
    ensures var s, last := Slashed(parts), parts[|parts| - 1]; s != "" && last in parts && s[|s| - 1] == last[|last| - 1]
    decreases |parts|
  {
    var p, rest := parts[0], parts[1..];
    assert p in parts && forall q :: q in rest ==> q in parts;
    LastOf("/" + p, Slashed(rest));
    if rest != [] {
      EndOfParts(rest);
      assert rest[|rest| - 1] == parts[|parts| - 1];
    }
  }

  lemma {:induction false} PartsOf(first: string, parts: seq<string>)
    requires '/' !in first && forall p :: p in parts ==> '/' !in p
    ensures Components(first + Slashed(parts)) == [first] + parts
    decreases |parts|
  {
    if parts == [] {
      OneComponent(first);
      assert first + Slashed(parts) == first;
    } else {
      assert parts[0] in parts && forall p :: p in parts[1..] ==> p in parts;
      PartsOf(parts[0], parts[1..]);
      ComponentsJoin(first, parts[0] + Slashed(parts[1..]));
      assert first + Slashed(parts) == first + "/" + (parts[0] + Slashed(parts[1..]));
    }
  }

  lemma {:induction false} PartsBack(name: string)
    ensures var c := Components(name);
            name == c[0] + Slashed(c[1..]) && forall p :: p in c ==> '/' !in p
    decreases |name|
  {
    if name != "" {
      var rest := Components(name[1..]);
      PartsBack(name[1..]);
      var c := Components(name);
      if name[0] == '/' {
        assert c[1..] == rest;
        assert name == "" + ("/" + rest[0] + Slashed(rest[1..]));
      } else {
        assert c[1..] == rest[1..];
        assert name == [name[0]] + rest[0] + Slashed(rest[1..]);
      }
    }
  }

  // --- the whole ------------------------------------------------------------------------

  lemma EndsIff(s: string, c: char)
    ensures EndsWith(s, [c]) <==> s != "" && s[|s| - 1] == c
  {
    if s != "" {
      assert s[|s| - 1..] == [s[|s| - 1]];
    }
  }

  lemma Joined(parts: seq<string>, a: char, b: char)
    requires b != '/' && a != '/'
    ensures !Contains("refs" + Slashed(parts), [a, b]) <==> NoPair("refs", a, b) && forall p :: p in parts ==> NoPair(p, a, b)
  {
    PairIff("refs" + Slashed(parts), a, b);
    PairsJoin("refs", Slashed(parts), a, b);
    PairsOfParts(parts, a, b);
  }

  lemma RefsIsPlain()
    ensures NoPair("refs", '.', '.') && NoPair("refs", '@', '{') && NoPair("refs", '/', '/')
    ensures PlainComponent("refs") && (forall c :: c in "refs" ==> PlainChar(c)) && '/' !in "refs"
  {
    AllowedIff();
  }

  lemma PassesPart(p: string)
    requires '/' !in p
    ensures IsPart(p)
       <==> PlainComponent(p) && (forall c :: c in p ==> Allowed(c)) && NoPair(p, '.', '.') && NoPair(p, '@', '{')
  {
  }

  /** What both readings say of the characters of a name of slashed parts. */
  predicate Plain(parts: seq<string>) {
    forall p :: p in parts ==> (forall c :: c in p ==> Allowed(c)) && NoPair(p, '.', '.') && NoPair(p, '@', '{')
  }

  lemma PlainIff(parts: seq<string>)
    requires forall p :: p in parts ==> '/' !in p
    ensures var name := "refs" + Slashed(parts);
            !Contains(name, "..") && !Contains(name, "@{") && (forall c :: c in name ==> PlainChar(c)) <==> Plain(parts)
  {
    var name := "refs" + Slashed(parts);
    RefsIsPlain();
    Joined(parts, '.', '.');
    Joined(parts, '@', '{');
    CharsOfParts(parts);
    hide Contains, Slashed, PlainChar, Allowed, NoPair, PlainComponent;
    assert forall c :: c in name <==> c in "refs" || c in Slashed(parts);
  }

  lemma PartsArePlain(parts: seq<string>)
    requires forall p :: p in parts ==> '/' !in p
    ensures (forall p :: p in parts ==> IsPart(p)) <==> Plain(parts) && forall p :: p in parts ==> PlainComponent(p)
  {
    hide IsPart, PlainComponent, Allowed, NoPair;
    forall p | p in parts
      ensures IsPart(p) <==> PlainComponent(p) && (forall c :: c in p ==> Allowed(c)) && NoPair(p, '.', '.') && NoPair(p, '@', '{') {
      PassesPart(p);
    }
  }

  /** No slash at the end, and none behind another. */
  lemma SlashesAreFine(parts: seq<string>)
    requires parts != [] && forall p :: p in parts ==> p != "" && '/' !in p
    ensures var name, last := "refs" + Slashed(parts), parts[|parts| - 1];
            && !EndsWith(name, "/") && !Contains(name, "//") && "refs/" <= name && name != "refs/"
            && last != "" && (EndsWith(name, ".") <==> last[|last| - 1] == '.')
  {
    var name := "refs" + Slashed(parts);
    hide Contains, EndsWith, Slashed, NoPair, Components;
    EndOfParts(parts);
    NoTwoSlashes(parts);
    RefsIsPlain();
    EndsIff(name, '/');
    EndsIff(name, '.');
    PairIff(name, '/', '/');
    PairsJoin("refs", Slashed(parts), '/', '/');
    assert parts[0] in parts;
    Begins(parts);
  }

  /** For names of slashed parts the two tell the same. */
  lemma TellTheSame(parts: seq<string>)
    requires parts != [] && forall p :: p in parts ==> '/' !in p
    ensures ValidRefname("refs" + Slashed(parts)) <==> IsRefname("refs" + Slashed(parts), parts)
  {
    var name := "refs" + Slashed(parts);
    PartsOf("refs", parts);
    RefsIsPlain();
    PlainIff(parts);
    PartsArePlain(parts);
    if forall p :: p in parts ==> PlainComponent(p) {
      NonEmpty(parts);
      SlashesAreFine(parts);
    }
    hide ByteLen, Components, Contains, EndsWith, Slashed, PlainChar, PlainComponent, IsPart, Plain;
    assert forall p :: p in ["refs"] + parts <==> p == "refs" || p in parts;
    assert parts[|parts| - 1] in parts;
  }

  lemma NonEmpty(parts: seq<string>)
    requires forall p :: p in parts ==> PlainComponent(p)
    ensures forall p :: p in parts ==> p != ""
  {
  }

  lemma Begins(parts: seq<string>)
    requires parts != [] && parts[0] != ""
    ensures "refs/" <= "refs" + Slashed(parts) && "refs" + Slashed(parts) != "refs/" && "refs"[3] == 's'
  {
    var name := "refs" + Slashed(parts);
    assert name[..5] == "refs/";
  }

  /** A name passes exactly if it is `refs` and parts behind slashes, each of allowed characters,
      neither begun by a dot nor ended by `.lock`, without two dots or `@{`, the last not ended by a
      dot, of at most 1024 bytes in all. */
  lemma RefnameIff(name: string)
    ensures ValidRefname(name) <==> exists parts :: IsRefname(name, parts)
  {
    if ValidRefname(name) {
      var c := Components(name);
      PartsBack(name);
      StartsWithRefs(name, c);
      TellTheSame(c[1..]);
      assert IsRefname(name, c[1..]);
    }
    if exists parts :: IsRefname(name, parts) {
      var parts :| IsRefname(name, parts);
      forall p | p in parts ensures '/' !in p {
        SlashIsNoPart(p);
      }
      TellTheSame(parts);
    }
  }

  lemma SlashIsNoPart(p: string)
    requires IsPart(p)
    ensures '/' !in p
  {
  }

  lemma StartsWithRefs(name: string, c: seq<string>)
    requires "refs/" <= name && name != "refs/" && c == Components(name)
    ensures |c| > 1 && c[0] == "refs"
  {
    ComponentsJoin("refs", name[5..]);
    assert name == "refs" + "/" + name[5..];
  }
}
