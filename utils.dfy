/** The text utilities of utils.go: the membership test used by the option
    prompts and the greedy word wrap used to lay text out in lines. */
module Utils {
  import opened GoStrings

  /** Contains: an early-return scan of `arr` for `target`. */
  method Contains(arr: seq<int>, target: int) returns (found: bool)
    ensures found <==> exists i :: 0 <= i < |arr| && arr[i] == target
  {
    var i := 0;
    while i < |arr|
      invariant 0 <= i <= |arr|
      invariant forall j :: 0 <= j < i ==> arr[j] != target
    {
      if arr[i] == target {
        return true;
      }
      i := i + 1;
    }
    return false;
  }

  // ---------------------------------------------------------------------
  // Word wrap: specification

  /** The greedy wrap of `words` into groups, one group per output line,
      with the words of the current line `cur` already placed. A word goes
      on a new line only when the current line is non-empty and its length
      plus the word's length exceeds `maxLength`; the separating space is
      not counted in that test. */
  function WrapFrom(words: seq<string>, maxLength: int, cur: seq<string>): seq<seq<string>>
    decreases |words|
  {
    if words == [] then
      (if cur == [] then [] else [cur])
    else if cur != [] && |Join(cur, " ")| + |words[0]| > maxLength then
      [cur] + WrapFrom(words[1..], maxLength, [words[0]])
    else
      WrapFrom(words[1..], maxLength, cur + [words[0]])
  }

  function Wrap(words: seq<string>, maxLength: int): seq<seq<string>> {
    WrapFrom(words, maxLength, [])
  }

  /** The text of each line: its words joined by single spaces. */
  function Lines(groups: seq<seq<string>>): seq<string>
  {
    seq(|groups|, k requires 0 <= k < |groups| => Join(groups[k], " "))
  }

  function Flatten(groups: seq<seq<string>>): seq<string>
    decreases |groups|
  {
    if groups == [] then [] else groups[0] + Flatten(groups[1..])
  }

  /** The words of each line, in order, concatenated. */
  function WordsOfLines(lines: seq<string>): seq<string>
    decreases |lines|
  {
    if lines == [] then [] else Fields(lines[0]) + WordsOfLines(lines[1..])
  }

  /** Every word of a line after the first was allowed onto it: the line so
      far plus the word fits in `maxLength`. */
  ghost predicate FitsWithin(g: seq<string>, maxLength: int) {
    forall j :: 1 <= j < |g| ==> |Join(g[..j], " ")| + |g[j]| <= maxLength
  }

  /** Every line break was forced: the line before it plus the first word
      after it exceeds `maxLength`. */
  ghost predicate BreaksForced(groups: seq<seq<string>>, maxLength: int) {
    forall k :: 1 <= k < |groups| ==>
      groups[k] != [] && |Join(groups[k - 1], " ")| + |groups[k][0]| > maxLength
  }

  ghost predicate GreedyWrap(groups: seq<seq<string>>, words: seq<string>, maxLength: int) {
    && Flatten(groups) == words
    && (forall g :: g in groups ==> GoodLine(g, maxLength))
    && BreaksForced(groups, maxLength)
  }

  // ---------------------------------------------------------------------
  // Word wrap: properties

  lemma FitsWithinExtend(cur: seq<string>, w: string, maxLength: int)
    requires FitsWithin(cur, maxLength)
    requires cur != [] ==> |Join(cur, " ")| + |w| <= maxLength
    ensures FitsWithin(cur + [w], maxLength)
  {
    var g := cur + [w];
    forall j | 1 <= j < |g| ensures |Join(g[..j], " ")| + |g[j]| <= maxLength {
      if j < |cur| {
        assert g[..j] == cur[..j] && g[j] == cur[j];
      } else {
        assert g[..j] == cur;
      }
    }
  }

  /** The current line is the start of the first line of the wrap. */
  lemma {:induction false} WrapFromStartsWithCur(words: seq<string>, maxLength: int, cur: seq<string>)
    requires cur != []
    ensures var r := WrapFrom(words, maxLength, cur);
      r != [] && |cur| <= |r[0]| && r[0][..|cur|] == cur
    decreases |words|
  {
    if words != [] {
      var w := words[0];
      if !(|Join(cur, " ")| + |w| > maxLength) {
        WrapFromStartsWithCur(words[1..], maxLength, cur + [w]);
        var r0 := WrapFrom(words, maxLength, cur)[0];
        assert r0[..|cur|] == r0[..|cur| + 1][..|cur|];
      }
    }
  }

  /** The wrap keeps every word, in order. */
  lemma {:induction false} WrapFromKeepsWords(words: seq<string>, maxLength: int, cur: seq<string>)
    ensures Flatten(WrapFrom(words, maxLength, cur)) == cur + words
    decreases |words|
  {
    var r := WrapFrom(words, maxLength, cur);
    if words == [] {
      assert cur + words == cur;
      if cur != [] {
        assert Flatten(r) == cur + Flatten([]);
      }
    } else {
      var w, rest := words[0], words[1..];
      assert [w] + rest == words;
      if cur != [] && |Join(cur, " ")| + |w| > maxLength {
        WrapFromKeepsWords(rest, maxLength, [w]);
        assert r[1..] == WrapFrom(rest, maxLength, [w]);
      } else {
        WrapFromKeepsWords(rest, maxLength, cur + [w]);
        assert cur + [w] + rest == cur + words;
      }
    }
  }

  /** A line of the wrap: non-empty, made of words, each of which the rule
      admitted. */
  ghost predicate GoodLine(g: seq<string>, maxLength: int) {
    g != [] && AllWords(g) && FitsWithin(g, maxLength)
  }

  /** Every line of the wrap is a good line. */
  lemma {:induction false} WrapFromLinesFit(words: seq<string>, maxLength: int, cur: seq<string>)
    requires AllWords(words) && AllWords(cur) && FitsWithin(cur, maxLength)
    ensures forall g :: g in WrapFrom(words, maxLength, cur) ==> GoodLine(g, maxLength)
    decreases |words|
  {
    if words != [] {
      var w, rest := words[0], words[1..];
      assert AllWords(rest);
      if cur != [] && |Join(cur, " ")| + |w| > maxLength {
        WrapFromLinesFit(rest, maxLength, [w]);
        assert WrapFrom(words, maxLength, cur) == [cur] + WrapFrom(rest, maxLength, [w]);
      } else {
        FitsWithinExtend(cur, w, maxLength);
        assert AllWords(cur + [w]);
        WrapFromLinesFit(rest, maxLength, cur + [w]);
      }
    }
  }

  /** Every break of the wrap was forced by the rule. */
  lemma {:induction false} WrapFromBreaksForced(words: seq<string>, maxLength: int, cur: seq<string>)
    ensures BreaksForced(WrapFrom(words, maxLength, cur), maxLength)
    decreases |words|
  {
    if words != [] {
      var w, rest := words[0], words[1..];
      if cur != [] && |Join(cur, " ")| + |w| > maxLength {
        var r' := WrapFrom(rest, maxLength, [w]);
        WrapFromBreaksForced(rest, maxLength, [w]);
        WrapFromStartsWithCur(rest, maxLength, [w]);
        assert r'[0][0] == w by { assert r'[0][..1] == [w]; }
        var r := [cur] + r';
        assert r == WrapFrom(words, maxLength, cur);
        forall k | 1 <= k < |r|
          ensures r[k] != [] && |Join(r[k - 1], " ")| + |r[k][0]| > maxLength
        {
          if k >= 2 {
            assert r[k] == r'[k - 1] && r[k - 1] == r'[k - 2];
          }
        }
      } else {
        WrapFromBreaksForced(rest, maxLength, cur + [w]);
      }
    }
  }

  /** The greedy wrap keeps every word, in order, and every line and every
      break it makes obeys the rule. */
  lemma WrapIsGreedy(words: seq<string>, maxLength: int)
    requires AllWords(words)
    ensures GreedyWrap(Wrap(words, maxLength), words, maxLength)
  {
    WrapFromKeepsWords(words, maxLength, []);
    WrapFromLinesFit(words, maxLength, []);
    WrapFromBreaksForced(words, maxLength, []);
    assert [] + words == words;
  }

  /** A line of two or more words is at most one character longer than
      `maxLength`: the space before its last word is not counted when that
      word is admitted. */
  lemma MultiWordLineLength(g: seq<string>, maxLength: int)
    requires |g| >= 2 && FitsWithin(g, maxLength)
    ensures |Join(g, " ")| <= maxLength + 1
  {
    var n := |g|;
    assert |Join(g[..n - 1], " ")| + |g[n - 1]| <= maxLength;
  }

  /** The bound is reached: "ab" and "cd" each pass the test for a width
      of 4, so they share a line of length 5. */
  lemma MultiWordLineOverrun()
    ensures Lines(Wrap(["ab", "cd"], 4)) == ["ab cd"]
  {
    var ws: seq<string> := ["ab", "cd"];
    assert ws[1..] == ["cd"] && ws[1..][1..] == [];
    assert Join(["ab"], " ") == "ab";
    assert Join(["ab", "cd"], " ") == "ab cd" by {
      assert ["ab", "cd"][..1] == ["ab"];
    }
    assert Wrap(ws, 4) == [["ab", "cd"]] by {
      var none: seq<string> := [];
      assert none + [ws[0]] == ["ab"];
      assert WrapFrom(ws, 4, none) == WrapFrom(["cd"], 4, ["ab"]);
      var rest: seq<string> := ["cd"];
      assert |Join(["ab"], " ")| + |rest[0]| == 4 && rest[1..] == [];
      assert ["ab"] + [rest[0]] == ["ab", "cd"];
      assert WrapFrom(rest, 4, ["ab"]) == WrapFrom([], 4, ["ab", "cd"]);
    }
  }

  lemma WordOfLongLineFits(g: seq<string>, maxLength: int, j: int)
    requires FitsWithin(g, maxLength)
    requires |g| >= 2 && 0 <= j < |g|
    ensures |g[j]| <= maxLength
  {
    if j == 0 {
      assert g[..1] == [g[0]];
      assert |Join(g[..1], " ")| + |g[1]| <= maxLength;
    } else {
      assert |Join(g[..j], " ")| + |g[j]| <= maxLength;
    }
  }

  /** A word longer than `maxLength` is alone on its line: every word of a
      line of two or more words fits in `maxLength`. */
  lemma LongWordAlone(words: seq<string>, maxLength: int)
    requires AllWords(words)
    ensures var groups := Wrap(words, maxLength);
      forall k, j :: 0 <= k < |groups| && |groups[k]| >= 2 && 0 <= j < |groups[k]| ==>
        |groups[k][j]| <= maxLength
  {
    var groups := Wrap(words, maxLength);
    WrapIsGreedy(words, maxLength);
    forall k, j | 0 <= k < |groups| && |groups[k]| >= 2 && 0 <= j < |groups[k]|
      ensures |groups[k][j]| <= maxLength
    {
      assert groups[k] in groups;
      WordOfLongLineFits(groups[k], maxLength, j);
    }
  }

  lemma {:induction false} WordsOfWrappedLines(groups: seq<seq<string>>)
    requires forall k :: 0 <= k < |groups| ==> AllWords(groups[k])
    ensures WordsOfLines(Lines(groups)) == Flatten(groups)
    decreases |groups|
  {
    if groups != [] {
      FieldsOfJoin(groups[0]);
      WordsOfWrappedLines(groups[1..]);
      assert Lines(groups)[1..] == Lines(groups[1..]);
    }
  }

  /** What the lines of a wrap look like, stated on the lines themselves. */
  lemma WrappedLines(words: seq<string>, maxLength: int)
    requires AllWords(words)
    ensures var lines := Lines(Wrap(words, maxLength));
      && (words == [] <==> lines == [])
      && WordsOfLines(lines) == words
      && (forall k :: 0 <= k < |lines| ==>
            lines[k] != [] && !IsSpace(lines[k][0]) && !IsSpace(lines[k][|lines[k]| - 1]))
      && (forall k :: 0 <= k < |lines| && |Fields(lines[k])| >= 2 ==> |lines[k]| <= maxLength + 1)
  {
    var groups := Wrap(words, maxLength);
    var lines := Lines(groups);
    WrapIsGreedy(words, maxLength);
    assert forall k :: 0 <= k < |groups| ==> groups[k] in groups;
    WordsOfWrappedLines(groups);
    forall k | 0 <= k < |lines|
      ensures lines[k] != [] && !IsSpace(lines[k][0]) && !IsSpace(lines[k][|lines[k]| - 1])
      ensures |Fields(lines[k])| >= 2 ==> |lines[k]| <= maxLength + 1
    {
      JoinEdges(groups[k], " ");
      FieldsOfJoin(groups[k]);
      if |groups[k]| >= 2 {
        MultiWordLineLength(groups[k], maxLength);
      }
    }
  }

  // ---------------------------------------------------------------------
  // Word wrap: the loop

  /** One step of the wrap when the next word starts a new line. */
  lemma WrapStepBreak(words: seq<string>, i: int, maxLength: int, cur: seq<string>)
    requires 0 <= i < |words| && cur != [] && |Join(cur, " ")| + |words[i]| > maxLength
    ensures WrapFrom(words[i..], maxLength, cur) == [cur] + WrapFrom(words[i + 1..], maxLength, [words[i]])
  {
    assert words[i..][0] == words[i] && words[i..][1..] == words[i + 1..];
  }

  /** One step of the wrap when the next word joins the current line. */
  lemma WrapStepJoin(words: seq<string>, i: int, maxLength: int, cur: seq<string>)
    requires 0 <= i < |words| && !(cur != [] && |Join(cur, " ")| + |words[i]| > maxLength)
    ensures WrapFrom(words[i..], maxLength, cur) == WrapFrom(words[i + 1..], maxLength, cur + [words[i]])
  {
    assert words[i..][0] == words[i] && words[i..][1..] == words[i + 1..];
  }

  lemma JoinSnoc(cur: seq<string>, w: string)
    ensures Join(cur + [w], " ") == if cur == [] then w else Join(cur, " ") + " " + w
  {
    if cur != [] {
      assert (cur + [w])[..|cur|] == cur;
    }
  }

  /** splitTextIntoLines: wrap the white-space separated words of `text`
      greedily into lines, building each line and its length as it goes. */
  method SplitTextIntoLines(text: string, maxLength: int) returns (lines: seq<string>)
    ensures lines == Lines(Wrap(Fields(text), maxLength))
    ensures Fields(text) == [] <==> lines == []
    ensures WordsOfLines(lines) == Fields(text)
    ensures forall k :: 0 <= k < |lines| ==> lines[k] != []
  {
    var words := Fields(text);
    ghost var done: seq<seq<string>> := [];
    ghost var cur: seq<string> := [];
    lines := [];
    var currentLine := "";
    var currentLength := 0;
    var i := 0;
    while i < |words|
      invariant 0 <= i <= |words|
      invariant AllWords(cur)
      invariant currentLine == Join(cur, " ")
      invariant currentLength == |currentLine|
      invariant (currentLength > 0) == (cur != [])
      invariant lines == Lines(done)
      invariant done + WrapFrom(words[i..], maxLength, cur) == Wrap(words, maxLength)
    {
      var word := words[i];
      var wordLength := |word|;
      if currentLength + wordLength > maxLength && currentLength > 0 {
        WrapStepBreak(words, i, maxLength, cur);
        assert done + WrapFrom(words[i..], maxLength, cur)
            == (done + [cur]) + WrapFrom(words[i + 1..], maxLength, [word]);
        assert Lines(done + [cur]) == Lines(done) + [currentLine];
        lines := lines + [currentLine];
        done := done + [cur];
        currentLine := "";
        currentLength := 0;
        cur := [];
        assert cur + [word] == [word];
      } else {
        WrapStepJoin(words, i, maxLength, cur);
      }
      if currentLength > 0 {
        currentLine := currentLine + " ";
        currentLength := currentLength + 1;
      }
      assert done + WrapFrom(words[i + 1..], maxLength, cur + [word]) == Wrap(words, maxLength);
      JoinSnoc(cur, word);
      JoinEdges(cur + [word], " ");
      currentLine := currentLine + word;
      currentLength := currentLength + wordLength;
      cur := cur + [word];
      i := i + 1;
    }
    assert words[i..] == [];
    if currentLength > 0 {
      assert Lines(done + [cur]) == Lines(done) + [currentLine];
      lines := lines + [currentLine];
      done := done + [cur];
    } else {
      assert done == done + [];
    }
    assert done == Wrap(words, maxLength);
    WrappedLines(words, maxLength);
  }
}
