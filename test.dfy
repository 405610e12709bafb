/** The typing session of test.go: the text to type is generated from the
    word corpus or a quote file, key presses edit the typed buffer, and the
    test finishes when the buffer matches, enough spaces were typed, or a
    time test ran out of time. The clock is an integer number of
    nanoseconds since Go's zero time; 0 is the zero time, which the source
    uses to mean "not started". File contents and random draws are inputs. */
module TypingTest {
  import opened Base
  import opened GoStrings

  const TEST_WORD := 0
  const TEST_TIME := 1
  const TEST_QUOTE := 2

  const QuoteTypes: seq<string> := ["short", "medium", "long"]

  /** The quote file of each quote category. */
  const CategoryFiles: map<string, string> := map[
    "short" := "./res/short_quotes.txt",
    "medium" := "./res/medium_quotes.txt",
    "long" := "./res/long_quotes.txt"
  ]

  const WordsFile := "./res/words.txt"

  /** The word count a word or time test uses when none was chosen. */
  const DefaultWordCount := 100

  /** time.Second, and the range of time.Duration (an int64 of nanoseconds). */
  const Second := 1_000_000_000
  const MaxDuration := 0x7FFF_FFFF_FFFF_FFFF
  const MinDuration := -0x8000_0000_0000_0000

  datatype Config = Config(punctuation: bool, number: bool, words: int, duration: int, quoteLen: int)

  /** What a finished test hands to the result screen. */
  datatype Metric = Metric(duration: int, allChars: int, correctChars: int)

  function Min(a: int, b: int): int { if a <= b then a else b }

  // ---------------------------------------------------------------------
  // Key presses

  /** The part of a test that key presses change. */
  datatype Typing = Typing(startTime: int, typedTxt: string, typedWords: int)

  datatype Keystroke = Keystroke(key: Key, now: int)

  /** One key press at time `now`: a rune is appended (a space also counts a
      word, and the first rune starts the clock); backspace drops the last
      character, uncounting it if it was a space; other keys do nothing. */
  function Press(p: Typing, key: Key, now: int): Typing {
    match key
    case Rune(c) =>
      Typing(if p.startTime == 0 then now else p.startTime,
             p.typedTxt + [c],
             p.typedWords + (if c == ' ' then 1 else 0))
    case Backspace =>
      if |p.typedTxt| != 0 then
        Typing(p.startTime,
               p.typedTxt[..|p.typedTxt| - 1],
               p.typedWords - (if p.typedTxt[|p.typedTxt| - 1] == ' ' then 1 else 0))
      else p
    case _ => p
  }

  /** A sequence of key presses, first to last. */
  function Replay(p: Typing, ks: seq<Keystroke>): Typing
    decreases |ks|
  {
    if ks == [] then p else Replay(Press(p, ks[0].key, ks[0].now), ks[1..])
  }

  /** The time of the first rune in `ks`, or 0 if there is none. */
  function FirstRuneTime(ks: seq<Keystroke>): int
    decreases |ks|
  {
    if ks == [] then 0
    else if ks[0].key.Rune? then ks[0].now
    else FirstRuneTime(ks[1..])
  }

  /** The word counter counts the spaces of the buffer. */
  predicate Counted(p: Typing) {
    p.typedWords == Count(p.typedTxt, ' ')
  }

  /** A rune key appends exactly its character; the word counter grows by
      one exactly when that character is a space. */
  lemma PressRune(p: Typing, c: char, now: int)
    ensures Press(p, Rune(c), now).typedTxt == p.typedTxt + [c]
    ensures Press(p, Rune(c), now).typedWords == p.typedWords + 1 <==> c == ' '
    ensures c != ' ' ==> Press(p, Rune(c), now).typedWords == p.typedWords
  {
  }

  /** Backspace on an empty buffer changes nothing; otherwise it removes the
      last character and uncounts a word exactly when that was a space. It
      never touches the start time. */
  lemma PressBackspace(p: Typing, now: int)
    ensures var q := Press(p, Backspace, now);
      q.startTime == p.startTime &&
      (p.typedTxt == [] ==> q == p) &&
      (p.typedTxt != [] ==>
        q.typedTxt + [p.typedTxt[|p.typedTxt| - 1]] == p.typedTxt &&
        (q.typedWords == p.typedWords - 1 <==> p.typedTxt[|p.typedTxt| - 1] == ' ') &&
        (p.typedTxt[|p.typedTxt| - 1] != ' ' ==> q.typedWords == p.typedWords))
  {
  }

  /** The start time changes only from unset, and only on a rune. */
  lemma PressStartTime(p: Typing, key: Key, now: int)
    ensures var q := Press(p, key, now);
      q.startTime != p.startTime ==> p.startTime == 0 && key.Rune? && q.startTime == now
  {
  }

  /** Every key press keeps the word counter equal to the number of spaces. */
  lemma PressKeepsCount(p: Typing, key: Key, now: int)
    requires Counted(p)
    ensures Counted(Press(p, key, now))
  {
    var s := p.typedTxt;
    match key
    case Rune(c) =>
      assert (s + [c])[..|s + [c]| - 1] == s;
    case Backspace =>
    case _ =>
  }

  lemma {:induction false} ReplayKeepsCount(p: Typing, ks: seq<Keystroke>)
    requires Counted(p)
    ensures Counted(Replay(p, ks))
    decreases |ks|
  {
    if ks != [] {
      PressKeepsCount(p, ks[0].key, ks[0].now);
      ReplayKeepsCount(Press(p, ks[0].key, ks[0].now), ks[1..]);
    }
  }

  /** Over any run of key presses from a fresh test, the word counter is the
      number of spaces typed and so never exceeds the buffer's length. */
  lemma FreshRunCounted(ks: seq<Keystroke>)
    ensures Counted(Replay(Typing(0, "", 0), ks))
    ensures 0 <= Replay(Typing(0, "", 0), ks).typedWords <= |Replay(Typing(0, "", 0), ks).typedTxt|
  {
    ReplayKeepsCount(Typing(0, "", 0), ks);
  }

  /** The start time is set once: by the first rune of the run unless it was
      already set. Clock readings are taken to be after Go's zero time. */
  lemma {:induction false} ReplayStartTime(p: Typing, ks: seq<Keystroke>)
    requires forall i :: 0 <= i < |ks| ==> ks[i].now > 0
    ensures Replay(p, ks).startTime == if p.startTime != 0 then p.startTime else FirstRuneTime(ks)
    decreases |ks|
  {
    if ks != [] {
      assert ks[0].now > 0;
      ReplayStartTime(Press(p, ks[0].key, ks[0].now), ks[1..]);
    }
  }

  // ---------------------------------------------------------------------
  // Finishing

  /** The number of positions below `n` where `a` and `b` agree. */
  function MatchesUpTo(a: string, b: string, n: nat): (c: nat)
    requires n <= |a| && n <= |b|
    ensures c <= n
    decreases n
  {
    if n == 0 then 0 else MatchesUpTo(a, b, n - 1) + (if a[n - 1] == b[n - 1] then 1 else 0)
  }

  ghost function MatchPositions(a: string, b: string, n: nat): set<int>
    requires n <= |a| && n <= |b|
  {
    set i | 0 <= i < n && a[i] == b[i]
  }

  /** MatchesUpTo counts exactly the agreeing positions. */
  lemma {:induction false} MatchesCountPositions(a: string, b: string, n: nat)
    requires n <= |a| && n <= |b|
    ensures MatchesUpTo(a, b, n) == |MatchPositions(a, b, n)|
    decreases n
  {
    if n == 0 {
      assert MatchPositions(a, b, 0) == {};
    } else {
      MatchesCountPositions(a, b, n - 1);
      if a[n - 1] == b[n - 1] {
        assert MatchPositions(a, b, n) == MatchPositions(a, b, n - 1) + {n - 1};
      } else {
        assert MatchPositions(a, b, n) == MatchPositions(a, b, n - 1);
      }
    }
  }

  /** All positions below `n` agree exactly when the prefixes are equal. */
  lemma {:induction false} MatchesAllIffPrefix(a: string, b: string, n: nat)
    requires n <= |a| && n <= |b|
    ensures MatchesUpTo(a, b, n) == n <==> a[..n] == b[..n]
    decreases n
  {
    if n > 0 {
      MatchesAllIffPrefix(a, b, n - 1);
      if a[..n] == b[..n] {
        assert a[..n - 1] == a[..n][..n - 1] && b[..n - 1] == b[..n][..n - 1];
        assert a[n - 1] == a[..n][n - 1];
      }
      if MatchesUpTo(a, b, n) == n {
        assert a[..n] == a[..n - 1] + [a[n - 1]] && b[..n] == b[..n - 1] + [b[n - 1]];
      }
    }
  }

  /** The correct characters of finish: the typed positions, up to the end
      of the text, that agree with the text. */
  function CorrectChars(typed: string, txt: string): nat {
    MatchesUpTo(typed, txt, Min(|typed|, |txt|))
  }

  lemma CorrectBound(typed: string, txt: string)
    ensures CorrectChars(typed, txt) <= |typed| && CorrectChars(typed, txt) <= |txt|
  {
  }

  /** Typing a prefix of the text gets every typed character right, and
      with no more typed than the text, only then. */
  lemma CorrectOfPrefix(typed: string, txt: string)
    requires |typed| <= |txt|
    ensures CorrectChars(typed, txt) == |typed| <==> typed == txt[..|typed|]
  {
    MatchesAllIffPrefix(typed, txt, |typed|);
    assert typed[..|typed|] == typed;
  }

  lemma CorrectOfCatDog()
    ensures CorrectChars("cat dog", "cat dog") == 7
  {
    CorrectOfPrefix("cat dog", "cat dog");
    assert "cat dog"[..7] == "cat dog";
  }

  /** time.Since: the nanoseconds from `start` to `now`, saturated to the
      range of time.Duration as Go's Time.Sub does. */
  function Elapsed(now: int, start: int): (d: int)
    ensures MinDuration <= d <= MaxDuration
    ensures MinDuration <= now - start <= MaxDuration ==> d == now - start
    ensures now - start > MaxDuration ==> d == MaxDuration
    ensures now - start < MinDuration ==> d == MinDuration
  {
    if now - start > MaxDuration then MaxDuration
    else if now - start < MinDuration then MinDuration
    else now - start
  }

  /** The finishing condition of finish. */
  predicate Done(kind: int, config: Config, txt: string, words: int, p: Typing, now: int) {
    txt == p.typedTxt || words == p.typedWords ||
    (kind == TEST_TIME && now > p.startTime + config.duration * Second)
  }

  function Report(kind: int, config: Config, txt: string, p: Typing, now: int): Metric {
    Metric(if kind == TEST_TIME then config.duration * Second else Elapsed(now, p.startTime),
           |p.typedTxt|,
           CorrectChars(p.typedTxt, txt))
  }

  /** What finish hands on: a metric when the test is done, nothing otherwise. */
  function Verdict(kind: int, config: Config, txt: string, words: int, p: Typing, now: int): Option<Metric> {
    if Done(kind, config, txt, words, p, now) then Some(Report(kind, config, txt, p, now)) else None
  }

  /** A metric reports every typed character, at most that many correct, and
      for a time test exactly the chosen number of seconds. */
  lemma VerdictMetric(kind: int, config: Config, txt: string, words: int, p: Typing, now: int)
    requires Verdict(kind, config, txt, words, p, now).Some?
    ensures var m := Verdict(kind, config, txt, words, p, now).value;
      m.allChars == |p.typedTxt| && m.correctChars <= |p.typedTxt| && m.correctChars <= |txt| &&
      (kind == TEST_TIME ==> m.duration == config.duration * Second)
  {
    CorrectBound(p.typedTxt, txt);
  }

  /** Typing the text exactly finishes the test with every character right. */
  lemma ExactTextFinishes(kind: int, config: Config, txt: string, words: int, p: Typing, now: int)
    requires p.typedTxt == txt
    ensures Verdict(kind, config, txt, words, p, now).Some?
    ensures Verdict(kind, config, txt, words, p, now).value.correctChars == |txt|
  {
    CorrectOfPrefix(txt, txt);
    assert txt[..|txt|] == txt;
  }

  /** The word limit is reached when the typist has typed one space more
      than the text holds: `words` counts the pieces between spaces. */
  lemma WordLimitIsOneSpaceMore(txt: string, p: Typing)
    requires Counted(p)
    ensures |Split(txt, ' ')| == p.typedWords <==> Count(p.typedTxt, ' ') == Count(txt, ' ') + 1
  {
    SplitCount(txt, ' ');
  }

  /** A time test whose clock never started compares against Go's zero time,
      so it is over as soon as `now` is past the duration itself. */
  lemma UnstartedTimeTestIsOver(config: Config, txt: string, words: int, p: Typing, now: int)
    requires p.startTime == 0 && now > config.duration * Second
    ensures Verdict(TEST_TIME, config, txt, words, p, now) == Some(Report(TEST_TIME, config, txt, p, now))
  {
  }

  // ---------------------------------------------------------------------
  // Text generation

  /** What os.Open and io.ReadAll yield for `path`, errors ignored: a file
      that cannot be opened reads as empty. */
  function FileText(files: map<string, string>, path: string): string {
    if path in files then files[path] else ""
  }

  function Swap(s: seq<string>, i: nat, j: nat): (r: seq<string>)
    requires i < |s| && j < |s|
    ensures |r| == |s|
  {
    s[i := s[j]][j := s[i]]
  }

  lemma SwapPermutes(s: seq<string>, i: nat, j: nat)
    requires i < |s| && j < |s|
    ensures multiset(Swap(s, i, j)) == multiset(s)
  {
    var t := s[i := s[j]];
    assert multiset(t) == multiset(s) - multiset{s[i]} + multiset{s[j]};
    assert multiset(t[j := s[i]]) == multiset(t) - multiset{t[j]} + multiset{s[i]};
  }

  /** rand.Shuffle from position `i` down to 1: position k is swapped with
      the draw for k reduced to the range [0, k]. */
  function ShuffleDown(s: seq<string>, i: int, draw: int -> int): (r: seq<string>)
    requires i < |s|
    ensures |r| == |s|
    decreases i
  {
    if i <= 0 then s else ShuffleDown(Swap(s, i, draw(i) % (i + 1)), i - 1, draw)
  }

  function Shuffled(s: seq<string>, draw: int -> int): seq<string> {
    ShuffleDown(s, |s| - 1, draw)
  }

  lemma {:induction false} ShuffleDownPermutes(s: seq<string>, i: int, draw: int -> int)
    requires i < |s|
    ensures multiset(ShuffleDown(s, i, draw)) == multiset(s)
    decreases i
  {
    if i > 0 {
      SwapPermutes(s, i, draw(i) % (i + 1));
      ShuffleDownPermutes(Swap(s, i, draw(i) % (i + 1)), i - 1, draw);
    }
  }

  /** A shuffle is a permutation. */
  lemma ShuffledPermutes(s: seq<string>, draw: int -> int)
    ensures multiset(Shuffled(s, draw)) == multiset(s)
  {
    ShuffleDownPermutes(s, |s| - 1, draw);
  }

  /** rand.Shuffle on a slice, swapping in place. */
  method ShuffleInPlace(a: array<string>, draw: int -> int)
    modifies a
    ensures a[..] == Shuffled(old(a[..]), draw)
  {
    var i := a.Length - 1;
    while i > 0
      invariant -1 <= i < a.Length
      invariant ShuffleDown(a[..], i, draw) == Shuffled(old(a[..]), draw)
    {
      var j := draw(i) % (i + 1);
      ghost var before := a[..];
      a[i], a[j] := a[j], a[i];
      assert a[..] == Swap(before, i, j);
      i := i - 1;
    }
  }

  /** The final slice-and-join of generateWords: the first `n` words joined
      by spaces, or the slice-bounds panic. */
  function SelectWords(words: seq<string>, n: int): Result<string> {
    if 0 <= n <= |words| then Ok(Join(words[..n], " ")) else Failure(IndexOutOfRange)
  }

  /** The text generateWords produces from the corpus file and the draws. */
  function WordsText(conf: Config, files: map<string, string>, draw: int -> int): Result<string> {
    if WordsFile !in files then Failure(MissingWordsFile)
    else SelectWords(Shuffled(Fields(files[WordsFile]), draw), conf.words)
  }

  method GenerateWords(conf: Config, files: map<string, string>, draw: int -> int) returns (r: Result<string>)
    ensures r == WordsText(conf, files, draw)
  {
    if WordsFile !in files {
      return Failure(MissingWordsFile);
    }
    var words := Fields(files[WordsFile]);
    var a := new string[|words|](k requires 0 <= k < |words| => words[k]);
    assert a[..] == words;
    ShuffleInPlace(a, draw);
    if conf.words < 0 || conf.words > a.Length {
      return Failure(IndexOutOfRange);
    }
    r := Ok(Join(a[..conf.words], " "));
  }

  /** Generating `n` words succeeds exactly when the corpus has at least
      `n` words; the text then splits on spaces into `n` pieces (for `n` at
      least one), which are words of the corpus, no more often than it
      holds them. A count of zero gives the empty text, which splits into
      one empty piece. */
  lemma GeneratedWords(corpus: string, draw: int -> int, n: int)
    ensures SelectWords(Shuffled(Fields(corpus), draw), n).Ok? <==> 0 <= n <= |Fields(corpus)|
    ensures var r := SelectWords(Shuffled(Fields(corpus), draw), n);
      r.Ok? && n >= 1 ==>
        |Split(r.value, ' ')| == n && Fields(r.value) == Split(r.value, ' ') &&
        multiset(Split(r.value, ' ')) <= multiset(Fields(corpus))
    ensures var r := SelectWords(Shuffled(Fields(corpus), draw), n);
      r.Ok? && n == 0 ==> r.value == "" && Split(r.value, ' ') == [""]
  {
    var ws := Shuffled(Fields(corpus), draw);
    if 1 <= n <= |ws| {
      var sel := ws[..n];
      ShuffledPermutes(Fields(corpus), draw);
      assert AllWords(ws) by {
        forall k | 0 <= k < |ws| ensures IsWord(ws[k]) {
          assert ws[k] in multiset(Fields(corpus));
        }
      }
      assert AllWords(sel);
      SplitOfJoinedWords(sel);
      FieldsOfJoin(sel);
      assert ws == sel + ws[n..];
      assert multiset(ws) == multiset(sel) + multiset(ws[n..]);
    }
  }

  /** The non-empty strings of `lines`, in their order. */
  function NonEmpty(lines: seq<string>): seq<string>
    decreases |lines|
  {
    if lines == [] then []
    else NonEmpty(lines[..|lines| - 1]) + (if lines[|lines| - 1] != "" then [lines[|lines| - 1]] else [])
  }

  /** NonEmpty keeps exactly the non-empty lines ... */
  lemma {:induction false} NonEmptyMembers(lines: seq<string>)
    ensures forall q :: q in NonEmpty(lines) <==> q in lines && q != ""
    decreases |lines|
  {
    if lines != [] {
      var init := lines[..|lines| - 1];
      NonEmptyMembers(init);
      assert lines == init + [lines[|lines| - 1]];
    }
  }

  /** ... and, filtering piece by piece, keeps their order. */
  lemma {:induction false} NonEmptyAppend(a: seq<string>, b: seq<string>)
    ensures NonEmpty(a + b) == NonEmpty(a) + NonEmpty(b)
    decreases |b|
  {
    if b == [] {
      assert a + b == a;
    } else {
      NonEmptyAppend(a, b[..|b| - 1]);
      assert (a + b)[..|a + b| - 1] == a + b[..|b| - 1];
    }
  }

  /** The quote generateQuote picks from the category's file: one of its
      non-empty lines, chosen by the draw; a category index outside the
      table or a file without a non-empty line is a panic. */
  function QuoteText(conf: Config, files: map<string, string>, pick: int): Result<string> {
    if !(0 <= conf.quoteLen < |QuoteTypes|) then Failure(IndexOutOfRange)
    else
      var kept := NonEmpty(Split(FileText(files, CategoryFiles[QuoteTypes[conf.quoteLen]]), '\n'));
      if kept == [] then Failure(EmptyQuoteBucket) else Ok(kept[pick % |kept|])
  }

  method GenerateQuote(conf: Config, files: map<string, string>, pick: int) returns (r: Result<string>)
    ensures r == QuoteText(conf, files, pick)
  {
    if !(0 <= conf.quoteLen < |QuoteTypes|) {
      return Failure(IndexOutOfRange);
    }
    var content := FileText(files, CategoryFiles[QuoteTypes[conf.quoteLen]]);
    var quotes := Split(content, '\n');
    var nonEmptyQuotes: seq<string> := [];
    var i := 0;
    while i < |quotes|
      invariant 0 <= i <= |quotes|
      invariant nonEmptyQuotes == NonEmpty(quotes[..i])
    {
      assert quotes[..i + 1][..i] == quotes[..i];
      if quotes[i] != "" {
        nonEmptyQuotes := nonEmptyQuotes + [quotes[i]];
      }
      i := i + 1;
    }
    assert quotes[..i] == quotes;
    if nonEmptyQuotes == [] {
      return Failure(EmptyQuoteBucket);
    }
    r := Ok(nonEmptyQuotes[pick % |nonEmptyQuotes|]);
  }

  /** A generated quote is a whole, non-empty line of the category's file,
      kept as it is (not trimmed). */
  lemma QuoteIsALine(conf: Config, files: map<string, string>, pick: int)
    requires QuoteText(conf, files, pick).Ok?
    ensures 0 <= conf.quoteLen < |QuoteTypes|
    ensures var q := QuoteText(conf, files, pick).value;
      q != "" && '\n' !in q &&
      q in Split(FileText(files, CategoryFiles[QuoteTypes[conf.quoteLen]]), '\n')
  {
    var lines := Split(FileText(files, CategoryFiles[QuoteTypes[conf.quoteLen]]), '\n');
    NonEmptyMembers(lines);
    var kept := NonEmpty(lines);
    assert kept[pick % |kept|] in kept;
  }

  // ---------------------------------------------------------------------
  // The test screen

  class Test {
    const kind: int
    var config: Config
    var startTime: int
    var txt: string
    var typedTxt: string
    var words: int
    var typedWords: int

    ghost predicate Valid()
      reads this
    {
      Counted(Typed())
    }

    function Typed(): Typing
      reads this
    {
      Typing(startTime, typedTxt, typedWords)
    }

    /** NewTest: nothing generated, nothing typed, the clock not started. */
    constructor (kind: int, config: Config)
      ensures this.kind == kind && this.config == config
      ensures startTime == 0 && txt == "" && typedTxt == "" && words == 0 && typedWords == 0
      ensures Valid()
    {
      this.kind := kind;
      this.config := config;
      startTime := 0;
      txt := "";
      typedTxt := "";
      words := 0;
      typedWords := 0;
    }

    /** generateText: a quote for a quote test, otherwise words, with the
        word count defaulted to 100; `words` is then the number of
        space-separated pieces of the text. A fault is the source's panic. */
    method GenerateText(files: map<string, string>, draw: int -> int, pick: int) returns (fault: Option<Fault>)
      modifies this
      ensures kind != TEST_QUOTE && old(config).words == 0 ==> config == old(config).(words := DefaultWordCount)
      ensures kind == TEST_QUOTE || old(config).words != 0 ==> config == old(config)
      ensures Typed() == old(Typed())
      ensures var gen := if kind == TEST_QUOTE then QuoteText(config, files, pick) else WordsText(config, files, draw);
        (gen.Ok? ==> fault == None && txt == gen.value && words == |Split(txt, ' ')|) &&
        (gen.Failure? ==> fault == Some(gen.fault) && txt == old(txt) && words == old(words))
      ensures kind != TEST_QUOTE && fault == None ==> words == config.words
    {
      var gen: Result<string>;
      if kind == TEST_QUOTE {
        gen := GenerateQuote(config, files, pick);
      } else {
        if config.words == 0 {
          config := config.(words := DefaultWordCount);
        }
        gen := GenerateWords(config, files, draw);
        if WordsFile in files {
          GeneratedWords(files[WordsFile], draw, config.words);
        }
      }
      if gen.Failure? {
        return Some(gen.fault);
      }
      txt := gen.value;
      words := |Split(txt, ' ')|;
      fault := None;
    }

    /** Update: apply the key press, then see whether the test is over. */
    method Update(key: Key, now: int) returns (m: Option<Metric>)
      requires Valid()
      modifies this
      ensures Valid()
      ensures Typed() == Press(old(Typed()), key, now)
      ensures config == old(config) && txt == old(txt) && words == old(words)
      ensures m == Verdict(kind, config, txt, words, Typed(), now)
    {
      PressKeepsCount(Typed(), key, now);
      match key {
        case Rune(c) =>
          if c == ' ' {
            typedWords := typedWords + 1;
          }
          if startTime == 0 {
            startTime := now;
          }
          typedTxt := typedTxt + [c];
        case Backspace =>
          if |typedTxt| != 0 {
            if typedTxt[|typedTxt| - 1] == ' ' {
              typedWords := typedWords - 1;
            }
            typedTxt := typedTxt[..|typedTxt| - 1];
          }
        case _ =>
      }
      m := Finish(now);
    }

    /** finish: the metric of a finished test, counting correct characters
        position by position. */
    method Finish(now: int) returns (m: Option<Metric>)
      ensures m == Verdict(kind, config, txt, words, Typed(), now)
    {
      if !Done(kind, config, txt, words, Typed(), now) {
        return None;
      }
      var duration := Elapsed(now, startTime);
      if kind == TEST_TIME {
        duration := config.duration * Second;
      }
      var correct := 0;
      var i := 0;
      while i < |typedTxt|
        invariant 0 <= i <= |typedTxt| && i <= |txt|
        invariant correct == MatchesUpTo(typedTxt, txt, i)
      {
        if i >= |txt| {
          break;
        }
        if typedTxt[i] == txt[i] {
          correct := correct + 1;
        }
        i := i + 1;
      }
      assert i == Min(|typedTxt|, |txt|);
      m := Some(Metric(duration, |typedTxt|, correct));
    }
  }
}
