/** IRC/src/server.rs, `names_reply`: the names of a channel, broken into lines. */
module IrcNames {
  import opened Common
  import opened IrcWords
  import opened Utf8

  const NAMES_LINE := 380

  function AllWordsOf(lines: seq<string>): seq<string> {
    if lines == [] then [] else Words(lines[0]) + AllWordsOf(lines[1..])
  }

  lemma {:induction false} AllWordsJoin(a: seq<string>, b: seq<string>)
    ensures AllWordsOf(a + b) == AllWordsOf(a) + AllWordsOf(b)
  {
    if a == [] {
      assert a + b == b;
    } else {
      assert (a + b)[1..] == a[1..] + b;
      AllWordsJoin(a[1..], b);
    }
  }

  lemma OneLine(line: string)
    ensures AllWordsOf([line]) == Words(line) && Words("") == []
  {
    assert [line][1..] == [];
    assert Words(line) + [] == Words(line);
  }

  /** A word put after a space is the last word. */
  lemma WordAdded(line: string, w: string)
    requires IsWord(w)
    ensures Words(line + (if line == "" then w else " " + w)) == Words(line) + [w]
  {
    if line == "" {
      FirstWord(w, "");
      assert w + "" == w && "" + w == w;
    } else {
      AfterSpace(line, w);
    }
  }

  lemma {:induction false} AfterSpace(line: string, w: string)
    requires IsWord(w)
    ensures Words(line + (" " + w)) == Words(line) + [w]
    decreases |line|
  {
    if line == "" {
      assert line + (" " + w) == " " + w && (" " + w)[1..] == w;
      FirstWord(w, "");
      assert w + "" == w;
    } else {
      var s := line + (" " + w);
      if IsSpace(line[0]) {
        assert s[1..] == line[1..] + (" " + w);
        AfterSpace(line[1..], w);
      } else {
        InitialWord(line);
        var first, rest := line[..WordEnd(line)], line[WordEnd(line)..];
        assert s == first + (rest + (" " + w)) && line == first + rest;
        FirstWord(first, rest + (" " + w));
        FirstWord(first, rest);
        AfterSpace(rest, w);
      }
    }
  }

  lemma InitialWord(line: string)
    requires line != "" && !IsSpace(line[0])
    ensures WordEnd(line) > 0 && IsWord(line[..WordEnd(line)])
  {
  }

  /** The loop that packs the names. No name is lost, doubled or split, their order stays, and
      no line is longer than its limit. */
  method Lines(names: seq<string>) returns (chunks: seq<string>)
    requires forall n :: n in names ==> IsWord(n) && ByteLen(n) < NAMES_LINE
    ensures AllWordsOf(chunks) == names
    ensures forall c :: c in chunks ==> 0 < ByteLen(c) <= NAMES_LINE
  {
    hide Words, AllWordsOf, IsWord, ByteLen;
    LenAdded("", "");
    var line := "";
    chunks := [];
    OneLine("");
    NoLines();
    for i := 0 to |names|
      invariant AllWordsOf(chunks) + Words(line) == names[..i]
      invariant ByteLen(line) <= NAMES_LINE && forall c :: c in chunks ==> 0 < ByteLen(c) <= NAMES_LINE
    {
      var n := names[i];
      assert n in names;
      if ByteLen(line) + ByteLen(n) + 1 > NAMES_LINE {
        AllWordsJoin(chunks, [line]);
        OneLine(line);
        chunks := chunks + [line];
        line := "";
      }
      WordAdded(line, n);
      LenAdded(line, n);
      assert names[..i + 1] == names[..i] + [n];
      line := line + if line == "" then n else " " + n;
    }
    assert names[..|names|] == names;
    if line != "" {
      LenAdded(line, "");
      AllWordsJoin(chunks, [line]);
      OneLine(line);
      chunks := chunks + [line];
    }
  }

  lemma LenAdded(line: string, w: string)
    ensures ByteLen("") == 0 && (line != "" ==> ByteLen(line) > 0)
    ensures ByteLen(line + if line == "" then w else " " + w) == ByteLen(line) + (if line == "" then 0 else 1) + ByteLen(w)
  {
    LenJoin(line, if line == "" then w else " " + w);
    assert line != "" ==> (" " + w)[1..] == w;
  }

  lemma NoLines()
    ensures AllWordsOf([]) == []
  {
  }
}
