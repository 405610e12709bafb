/** The few functions of Go's standard library that the core relies on:
    unicode.IsSpace, strings.Fields (equivalently strings.FieldsFunc with
    unicode.IsSpace), strings.Split with a one-character separator,
    strings.Join and strconv.Atoi. Strings are sequences of characters. */
module GoStrings {

  /** unicode.IsSpace: the characters with Unicode's White_Space property. */
  predicate IsSpace(c: char) {
    var n := c as int;
    n == 0x20 || 0x09 <= n <= 0x0D || n == 0x85 || n == 0xA0 || n == 0x1680
    || 0x2000 <= n <= 0x200A || n == 0x2028 || n == 0x2029 || n == 0x202F
    || n == 0x205F || n == 0x3000
  }

  predicate NoSpace(s: string) {
    forall i :: 0 <= i < |s| ==> !IsSpace(s[i])
  }

  /** A word in the sense of strings.Fields: non-empty, without white space. */
  predicate IsWord(w: string) {
    w != [] && NoSpace(w)
  }

  predicate AllWords(ws: seq<string>) {
    forall k :: 0 <= k < |ws| ==> IsWord(ws[k])
  }

  /** strings.Fields scanning `s` with the partial word `cur` already read. */
  function FieldsFrom(s: string, cur: string): (r: seq<string>)
    ensures NoSpace(cur) ==> AllWords(r)
    decreases |s|
  {
    if s == [] then
      (if cur == [] then [] else [cur])
    else if IsSpace(s[0]) then
      (if cur == [] then [] else [cur]) + FieldsFrom(s[1..], [])
    else
      FieldsFrom(s[1..], cur + [s[0]])
  }

  /** strings.Fields: the maximal runs of non-space characters, in order. */
  function Fields(s: string): (r: seq<string>)
    ensures AllWords(r)
  {
    FieldsFrom(s, [])
  }

  /** strings.Join. Written so that appending one more element extends the
      result at its end, which is how the word-wrap loop builds a line. */
  function Join(ws: seq<string>, sep: string): string
    decreases |ws|
  {
    if |ws| == 0 then ""
    else if |ws| == 1 then ws[0]
    else Join(ws[..|ws| - 1], sep) + sep + ws[|ws| - 1]
  }

  /** strings.Split(s, string([sep])) scanning `s` after the piece `cur`. */
  function SplitFrom(s: string, sep: char, cur: string): (r: seq<string>)
    ensures |r| >= 1
    ensures sep !in cur ==> forall k :: 0 <= k < |r| ==> sep !in r[k]
    decreases |s|
  {
    if s == [] then [cur]
    else if s[0] == sep then [cur] + SplitFrom(s[1..], sep, [])
    else SplitFrom(s[1..], sep, cur + [s[0]])
  }

  /** strings.Split with a one-character separator: the pieces between the
      separators; the empty string gives one empty piece. */
  function Split(s: string, sep: char): (r: seq<string>)
    ensures |r| >= 1 && forall k :: 0 <= k < |r| ==> sep !in r[k]
  {
    SplitFrom(s, sep, [])
  }

  /** How often `c` occurs in `s`: the reference count of typed spaces. */
  function Count(s: string, c: char): (n: nat)
    ensures n <= |s|
    decreases |s|
  {
    if s == [] then 0 else Count(s[..|s| - 1], c) + (if s[|s| - 1] == c then 1 else 0)
  }

  predicate IsDigits(s: string) {
    s != [] && forall i :: 0 <= i < |s| ==> '0' <= s[i] <= '9'
  }

  function DecimalValue(s: string): nat
    requires forall i :: 0 <= i < |s| ==> '0' <= s[i] <= '9'
    decreases |s|
  {
    if s == [] then 0
    else 10 * DecimalValue(s[..|s| - 1]) + (s[|s| - 1] as int - '0' as int)
  }

  /** strconv.Atoi, with its error result discarded as the callers do: an
      optional sign and at least one decimal digit, otherwise 0. */
  function Atoi(s: string): (r: int)
    ensures IsDigits(s) ==> r == DecimalValue(s)
    ensures !IsDigits(s) && (s == [] || (s[0] != '+' && s[0] != '-')) ==> r == 0
  {
    if |s| > 0 && (s[0] == '+' || s[0] == '-') then
      if IsDigits(s[1..]) then
        (if s[0] == '-' then -(DecimalValue(s[1..]) as int) else DecimalValue(s[1..]))
      else 0
    else if IsDigits(s) then DecimalValue(s)
    else 0
  }

  // ---------------------------------------------------------------------
  // Join

  /** Join taken apart at its front. */
  lemma {:induction false} JoinCons(x: string, ys: seq<string>, sep: string)
    requires ys != []
    ensures Join([x] + ys, sep) == x + sep + Join(ys, sep)
    decreases |ys|
  {
    if |ys| == 1 {
      assert ([x] + ys)[..1] == [x];
    } else {
      var init := ys[..|ys| - 1];
      JoinCons(x, init, sep);
      assert ([x] + ys)[..|ys|] == [x] + init;
    }
  }

  /** A strings.Join of words starts and ends with a non-space character. */
  lemma {:induction false} JoinEdges(ws: seq<string>, sep: string)
    requires ws != [] && AllWords(ws)
    ensures var r := Join(ws, sep); r != [] && !IsSpace(r[0]) && !IsSpace(r[|r| - 1])
    ensures |Join(ws, sep)| >= |ws[|ws| - 1]|
    decreases |ws|
  {
    if |ws| > 1 {
      JoinEdges(ws[..|ws| - 1], sep);
      assert ws[..|ws| - 1][0] == ws[0];
    }
  }

  // ---------------------------------------------------------------------
  // Fields

  lemma {:induction false} FieldsOfWord(w: string, cur: string)
    requires NoSpace(w)
    ensures FieldsFrom(w, cur) == if cur + w == [] then [] else [cur + w]
    decreases |w|
  {
    if w != [] {
      assert !IsSpace(w[0]) && NoSpace(w[1..]);
      FieldsOfWord(w[1..], cur + [w[0]]);
      assert cur + [w[0]] + w[1..] == cur + w;
    } else {
      assert cur + w == cur;
    }
  }

  /** Fields distributes over a concatenation whose right part starts with
      white space. */
  lemma {:induction false} FieldsAppend(a: string, b: string, cur: string)
    requires b != [] && IsSpace(b[0])
    ensures FieldsFrom(a + b, cur) == FieldsFrom(a, cur) + Fields(b)
    decreases |a|
  {
    if a == [] {
      assert a + b == b;
    } else {
      assert (a + b)[0] == a[0] && (a + b)[1..] == a[1..] + b;
      if IsSpace(a[0]) {
        FieldsAppend(a[1..], b, []);
      } else {
        FieldsAppend(a[1..], b, cur + [a[0]]);
      }
    }
  }

  lemma FieldsOfSpacedWord(w: string)
    requires IsWord(w)
    ensures Fields(" " + w) == [w]
  {
    assert (" " + w)[0] == ' ' && (" " + w)[1..] == w;
    assert Fields(" " + w) == FieldsFrom(w, []);
    FieldsOfWord(w, []);
    assert [] + w == w;
  }

  /** Fields undoes a Join with a single space, for words. */
  lemma {:induction false} FieldsOfJoin(ws: seq<string>)
    requires AllWords(ws)
    ensures Fields(Join(ws, " ")) == ws
    decreases |ws|
  {
    if |ws| == 1 {
      FieldsOfWord(ws[0], []);
      assert [] + ws[0] == ws[0] && [ws[0]] == ws;
    } else if |ws| > 1 {
      var init, last := ws[..|ws| - 1], ws[|ws| - 1];
      FieldsOfJoin(init);
      assert Join(ws, " ") == Join(init, " ") + (" " + last);
      FieldsAppend(Join(init, " "), " " + last, []);
      FieldsOfSpacedWord(last);
      assert init + [last] == ws;
    }
  }

  // ---------------------------------------------------------------------
  // Split

  lemma {:induction false} SplitOfPiece(w: string, sep: char, cur: string)
    requires sep !in w
    ensures SplitFrom(w, sep, cur) == [cur + w]
    decreases |w|
  {
    if w != [] {
      assert w[0] != sep && sep !in w[1..];
      SplitOfPiece(w[1..], sep, cur + [w[0]]);
      assert cur + [w[0]] + w[1..] == cur + w;
    } else {
      assert cur + w == cur;
    }
  }

  lemma {:induction false} SplitAppend(a: string, sep: char, b: string, cur: string)
    ensures SplitFrom(a + [sep] + b, sep, cur) == SplitFrom(a, sep, cur) + Split(b, sep)
    decreases |a|
  {
    if a == [] {
      assert a + [sep] + b == [sep] + b;
      assert ([sep] + b)[1..] == b;
    } else {
      assert (a + [sep] + b)[0] == a[0] && (a + [sep] + b)[1..] == a[1..] + [sep] + b;
      if a[0] == sep {
        SplitAppend(a[1..], sep, b, []);
      } else {
        SplitAppend(a[1..], sep, b, cur + [a[0]]);
      }
    }
  }

  /** Splitting a join on its one-character separator gives the pieces back,
      provided no piece contains the separator. */
  lemma {:induction false} SplitOfJoin(ws: seq<string>, sep: char)
    requires ws != []
    requires forall k :: 0 <= k < |ws| ==> sep !in ws[k]
    ensures Split(Join(ws, [sep]), sep) == ws
    decreases |ws|
  {
    if |ws| == 1 {
      SplitOfPiece(ws[0], sep, []);
      assert [] + ws[0] == ws[0] && [ws[0]] == ws;
    } else {
      var init, last := ws[..|ws| - 1], ws[|ws| - 1];
      SplitOfJoin(init, sep);
      assert Join(ws, [sep]) == Join(init, [sep]) + [sep] + last;
      SplitAppend(Join(init, [sep]), sep, last, []);
      SplitOfPiece(last, sep, []);
      assert [] + last == last;
      assert init + [last] == ws;
    }
  }

  lemma SplitFromAtSep(s: string, sep: char, cur: string)
    requires s != [] && s[0] == sep
    ensures SplitFrom(s, sep, cur) == [cur] + SplitFrom(s[1..], sep, [])
  {
  }

  lemma SplitFromAtOther(s: string, sep: char, cur: string)
    requires s != [] && s[0] != sep
    ensures SplitFrom(s, sep, cur) == SplitFrom(s[1..], sep, cur + [s[0]])
  {
  }

  lemma JoinOfSplitAtSep(s: string, sep: char, cur: string)
    requires s != [] && s[0] == sep
    requires Join(SplitFrom(s[1..], sep, []), [sep]) == s[1..]
    ensures Join(SplitFrom(s, sep, cur), [sep]) == cur + [sep] + s[1..]
  {
    SplitFromAtSep(s, sep, cur);
    JoinCons(cur, SplitFrom(s[1..], sep, []), [sep]);
  }

  lemma RestAfterSeparator(s: string, sep: char, cur: string)
    requires s != [] && s[0] == sep
    ensures cur + [sep] + s[1..] == cur + s
  {
    assert [sep] == [s[0]];
    assert cur + [s[0]] + s[1..] == cur + s;
  }

  lemma JoinOfSplitAtOther(s: string, sep: char, cur: string)
    requires s != [] && s[0] != sep
    requires Join(SplitFrom(s[1..], sep, cur + [s[0]]), [sep]) == cur + [s[0]] + s[1..]
    ensures Join(SplitFrom(s, sep, cur), [sep]) == cur + s
  {
    SplitFromAtOther(s, sep, cur);
    assert cur + [s[0]] + s[1..] == cur + s;
  }

  lemma {:induction false} JoinOfSplitFrom(s: string, sep: char, cur: string)
    ensures Join(SplitFrom(s, sep, cur), [sep]) == cur + s
    decreases |s|
  {
    if s == [] {
      assert cur + s == cur;
    } else if s[0] == sep {
      JoinOfSplitFrom(s[1..], sep, []);
      assert [] + s[1..] == s[1..];
      JoinOfSplitAtSep(s, sep, cur);
      RestAfterSeparator(s, sep, cur);
    } else {
      JoinOfSplitFrom(s[1..], sep, cur + [s[0]]);
      JoinOfSplitAtOther(s, sep, cur);
    }
  }

  /** Joining the pieces of a split with the separator gives the string back. */
  lemma JoinOfSplit(s: string, sep: char)
    ensures Join(Split(s, sep), [sep]) == s
  {
    JoinOfSplitFrom(s, sep, []);
  }

  lemma {:induction false} CountAppend(a: string, b: string, c: char)
    ensures Count(a + b, c) == Count(a, c) + Count(b, c)
    decreases |b|
  {
    if b == [] {
      assert a + b == a;
    } else {
      CountAppend(a, b[..|b| - 1], c);
      assert (a + b)[..|a + b| - 1] == a + b[..|b| - 1];
    }
  }

  lemma {:induction false} SplitFromCount(s: string, sep: char, cur: string)
    ensures |SplitFrom(s, sep, cur)| == Count(s, sep) + 1
    decreases |s|
  {
    if s != [] {
      CountAppend([s[0]], s[1..], sep);
      assert [s[0]] + s[1..] == s;
      assert Count([s[0]], sep) == if s[0] == sep then 1 else 0 by {
        assert [s[0]][..0] == [];
      }
      if s[0] == sep {
        SplitFromAtSep(s, sep, cur);
        SplitFromCount(s[1..], sep, []);
      } else {
        SplitFromAtOther(s, sep, cur);
        SplitFromCount(s[1..], sep, cur + [s[0]]);
      }
    }
  }

  /** strings.Split gives one piece more than there are separators. */
  lemma SplitCount(s: string, sep: char)
    ensures |Split(s, sep)| == Count(s, sep) + 1
  {
    SplitFromCount(s, sep, []);
  }

  /** Words contain no space character, so a join of words with a space
      splits back into the same words. */
  lemma SplitOfJoinedWords(ws: seq<string>)
    requires ws != [] && AllWords(ws)
    ensures Split(Join(ws, " "), ' ') == ws
  {
    SplitOfJoin(ws, ' ');
  }
}
