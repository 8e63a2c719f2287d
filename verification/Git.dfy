/** The part of git's object model the depot modules share (depot/src/git/mod.rs). */
module Git {
  import opened Utf8

  /** An object id. Content addressing is stated where it is used. */
  type Oid = nat

  datatype Kind = Commit | Tree | Blob | Tag

  // --- ref names ------------------------------------------------------------------------

  predicate HasAt(s: string, t: string, i: nat) {
    i + |t| <= |s| && s[i..i + |t|] == t
  }

  predicate Contains(s: string, t: string) {
    exists i: nat :: i <= |s| && HasAt(s, t, i)
  }

  predicate EndsWith(s: string, t: string) {
    |t| <= |s| && s[|s| - |t|..] == t
  }

  /** The parts of a name between slashes. */
  function Components(name: string): (r: seq<string>)
    ensures r != []
  {
    if name == "" then [""]
    else
      var rest := Components(name[1..]);
      if name[0] == '/' then [""] + rest else [[name[0]] + rest[0]] + rest[1..]
  }

  predicate PlainChar(c: char) {
    c >= ' ' && c as int != 127 && c !in " ~^:?*[\\"
  }

  predicate PlainComponent(s: string) {
    s != "" && s[0] != '.' && !EndsWith(s, ".lock")
  }

  /** `valid_refname`. */
  predicate ValidRefname(name: string) {
    && "refs/" <= name && ByteLen(name) <= 1024 && !EndsWith(name, "/")
    && !Contains(name, "..") && !Contains(name, "@{") && !Contains(name, "//") && !EndsWith(name, ".")
    && (forall c :: c in name ==> PlainChar(c))
    && (forall part :: part in Components(name) ==> PlainComponent(part))
    && name != "refs/"
  }

  lemma {:induction false} ComponentsJoin(a: string, b: string)
    requires '/' !in a
    ensures Components(a + "/" + b) == [a] + Components(b)
  {
    if a == "" {
      assert (a + "/" + b)[1..] == b;
    } else {
      assert (a + "/" + b)[1..] == a[1..] + "/" + b;
      ComponentsJoin(a[1..], b);
      assert [a[0]] + a[1..] == a;
    }
  }

  lemma {:induction false} OneComponent(a: string)
    requires '/' !in a
    ensures Components(a) == [a]
  {
    if a != "" {
      OneComponent(a[1..]);
      assert [a[0]] + a[1..] == a;
    }
  }

  predicate Letters(s: string) {
    forall c :: c in s ==> 'a' <= c <= 'z'
  }

  /** Names of letters and single slashes are valid. */
  lemma LettersAreValid(name: string)
    requires "refs/" <= name && 5 < |name| <= 1024 && name[|name| - 1] != '/'
    requires forall i :: 0 <= i < |name| ==> name[i] == '/' || 'a' <= name[i] <= 'z'
    requires forall i :: 0 <= i < |name| - 1 ==> name[i] != '/' || name[i + 1] != '/'
    requires forall part :: part in Components(name) ==> part != "" && Letters(part)
    ensures ValidRefname(name)
  {
    AsciiLen(name);
    NoPairs(name);
    hide Components, ByteLen, Contains;
    assert forall x :: x in name ==> PlainChar(x);
    forall part | part in Components(name) ensures PlainComponent(part) {
      LettersArePlain(part);
    }
  }

  lemma LettersArePlain(part: string)
    requires part != "" && Letters(part)
    ensures PlainComponent(part)
  {
    assert part[0] in part;
    if |part| >= 5 {
      assert part[|part| - 5] in part;
      assert part[|part| - 5..][0] != ".lock"[0];
    }
  }

  /** A tag named by one letter, and one below it. */
  lemma TagIsValid(c: char)
    requires 'a' <= c <= 'z'
    ensures ValidRefname("refs/tags/" + [c])
  {
    var name := "refs/tags/" + [c];
    assert Components(name) == ["refs", "tags", [c]] by {
      assert name == "refs" + "/" + ("tags" + "/" + [c]);
      ComponentsJoin("refs", "tags" + "/" + [c]);
      ComponentsJoin("tags", [c]);
      OneComponent([c]);
    }
    hide Components, ValidRefname;
    LettersAreValid(name);
  }

  lemma TagBelowIsValid(c: char, d: char)
    requires 'a' <= c <= 'z' && 'a' <= d <= 'z'
    ensures ValidRefname("refs/tags/" + [c, '/', d])
  {
    var name := "refs/tags/" + [c, '/', d];
    assert Components(name) == ["refs", "tags", [c], [d]] by {
      assert name == "refs" + "/" + ("tags" + "/" + ([c] + "/" + [d]));
      ComponentsJoin("refs", "tags" + "/" + ([c] + "/" + [d]));
      ComponentsJoin("tags", [c] + "/" + [d]);
      ComponentsJoin([c], [d]);
      OneComponent([d]);
    }
    hide Components, ValidRefname;
    LettersAreValid(name);
  }

  /** No dots, no braces, no slashes together. */
  lemma NoPairs(name: string)
    requires forall i :: 0 <= i < |name| ==> name[i] != '.' && name[i] != '@'
    requires forall i :: 0 <= i < |name| - 1 ==> name[i] != '/' || name[i + 1] != '/'
    ensures !Contains(name, "..") && !Contains(name, "@{") && !Contains(name, "//")
  {
    forall i: nat | i <= |name| ensures !HasAt(name, "..", i) && !HasAt(name, "@{", i) && !HasAt(name, "//", i) {
      if i + 2 <= |name| {
        assert name[i] == name[i..i + 2][0] && name[i + 1] == name[i..i + 2][1];
      }
    }
  }
}
