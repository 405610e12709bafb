/** The selection screen of menu.go. The menu cycles through the three test
    kinds and, once Down is pressed, hands keys to the prompt of the current
    kind until that prompt reports that the user left it upwards. The word
    and time prompts have a check list (punctuation, numbers) and a list of
    preset values with a cursor and a committed choice; the quote prompt has
    one cursor over the quote categories. The prompts are one global table
    in the source, so their state outlives any one menu. */
module Selection {
  import opened Base
  import opened GoStrings
  import opened Utils
  import opened TypingTest

  const CheckListItems: seq<string> := ["punctuation", "numbers"]
  const DurationChoices: seq<string> := ["15", "30", "60", "120"]
  const WordCountChoices: seq<string> := ["10", "25", "50", "100"]

  /** Indices into CheckListItems. */
  const PUNCTUATION := 0
  const NUMBER := 1

  /** len(TestTypes): the word, time and quote prompts. */
  const KindCount := 3

  // ---------------------------------------------------------------------
  // The check list

  /** The rebuilt list of the Enter branch: `list` without `x`, in order. */
  function Without(list: seq<int>, x: int): seq<int>
    decreases |list|
  {
    if list == [] then []
    else Without(list[..|list| - 1], x) + (if list[|list| - 1] != x then [list[|list| - 1]] else [])
  }

  /** Enter on the check list: add the item if absent, else remove it. */
  function Toggled(list: seq<int>, x: int): seq<int> {
    if x in list then Without(list, x) else list + [x]
  }

  predicate NoDuplicates(list: seq<int>) {
    forall i, j :: 0 <= i < j < |list| ==> list[i] != list[j]
  }

  lemma {:induction false} WithoutMembers(list: seq<int>, x: int)
    ensures forall y :: y in Without(list, x) <==> y in list && y != x
    decreases |list|
  {
    if list != [] {
      var init := list[..|list| - 1];
      WithoutMembers(init, x);
      assert list == init + [list[|list| - 1]];
    }
  }

  lemma {:induction false} WithoutKeepsNoDuplicates(list: seq<int>, x: int)
    requires NoDuplicates(list)
    ensures NoDuplicates(Without(list, x))
    decreases |list|
  {
    if list != [] {
      var init, last := list[..|list| - 1], list[|list| - 1];
      assert NoDuplicates(init) by {
        forall i, j | 0 <= i < j < |init| ensures init[i] != init[j] {
          assert init[i] == list[i] && init[j] == list[j];
        }
      }
      WithoutKeepsNoDuplicates(init, x);
      WithoutMembers(init, x);
      assert last !in init by {
        forall i | 0 <= i < |init| ensures init[i] != last {
          assert init[i] == list[i];
        }
      }
    }
  }

  /** Toggling flips the membership of `x` alone. */
  lemma ToggledMembers(list: seq<int>, x: int)
    ensures x in Toggled(list, x) <==> x !in list
    ensures forall y :: y != x ==> (y in Toggled(list, x) <==> y in list)
  {
    WithoutMembers(list, x);
  }

  /** Toggling keeps a list free of duplicates. */
  lemma ToggledNoDuplicates(list: seq<int>, x: int)
    requires NoDuplicates(list)
    ensures NoDuplicates(Toggled(list, x))
  {
    if x in list {
      WithoutKeepsNoDuplicates(list, x);
    }
  }

  // ---------------------------------------------------------------------
  // Word and time prompts

  /** The state of a word or time prompt. `committed` is the preset in use
      (wordCount / duration in the source) and `cursor` the preset under
      the cursor (currWordCount / currDuration). */
  datatype ListState = ListState(
    includedWords: seq<int>,
    currWord: int,
    committed: int,
    cursor: int,
    inCheckList: bool,
    inPrompt: bool)

  /** Both prompts start with the third preset committed and the check list
      focused. */
  const InitialList := ListState([], 0, 2, 0, true, false)

  /** Update of WordPrompt and TimePrompt over the value table `table`: the
      next state and whether the prompt was left. Down on the value list
      tests the committed index, not the cursor, against the table's end. */
  function ListStep(s: ListState, key: Key, table: seq<string>): (ListState, bool) {
    match key
    case Down =>
      if !s.inPrompt then
        (s.(currWord := 0, inCheckList := true, inPrompt := true), false)
      else if s.inCheckList then
        (s.(currWord := if s.currWord < |CheckListItems| - 1 then s.currWord + 1 else 0), false)
      else
        (s.(cursor := if s.committed < |table| - 1 then s.cursor + 1 else 0), false)
    case Up =>
      if s.inCheckList then
        if s.currWord > 0 then (s.(currWord := s.currWord - 1), false)
        else (s.(inPrompt := false), true)
      else
        if s.cursor > 0 then (s.(cursor := s.cursor - 1), false)
        else (s.(inPrompt := false), true)
    case Left => (s.(inCheckList := !s.inCheckList), false)
    case Right => (s.(inCheckList := !s.inCheckList), false)
    case Enter =>
      if s.inCheckList then (s.(includedWords := Toggled(s.includedWords, s.currWord)), false)
      else (s.(committed := s.cursor), false)
    case _ => (s, false)
  }

  /** The prompt is left exactly on Up at the top of the focused list, and
      leaving changes nothing but clearing inPrompt. */
  lemma ListLeftOnlyUpwards(s: ListState, key: Key, table: seq<string>)
    ensures ListStep(s, key, table).1 <==>
      key == Up && (if s.inCheckList then s.currWord <= 0 else s.cursor <= 0)
    ensures ListStep(s, key, table).1 ==> ListStep(s, key, table).0 == s.(inPrompt := false)
  {
  }

  /** Down on the focused check list moves to the next item, circularly. */
  lemma CheckListDownWraps(s: ListState, table: seq<string>)
    requires s.inPrompt && s.inCheckList && 0 <= s.currWord < |CheckListItems|
    ensures var r := ListStep(s, Down, table).0;
      r == s.(currWord := (s.currWord + 1) % |CheckListItems|) && 0 <= r.currWord < |CheckListItems|
  {
  }

  /** Left and Right switch between the two lists and change nothing else. */
  lemma ListLeftRightSwitch(s: ListState, key: Key, table: seq<string>)
    requires key == Left || key == Right
    ensures ListStep(s, key, table) == (s.(inCheckList := !s.inCheckList), false)
  {
  }

  /** Enter on the check list flips the membership of the item under the
      cursor alone and keeps the list free of duplicates. */
  lemma CheckListEnterToggles(s: ListState, table: seq<string>)
    requires s.inCheckList
    ensures var r := ListStep(s, Enter, table).0;
      (s.currWord in r.includedWords <==> s.currWord !in s.includedWords) &&
      (forall y :: y != s.currWord ==> (y in r.includedWords <==> y in s.includedWords)) &&
      (NoDuplicates(s.includedWords) ==> NoDuplicates(r.includedWords)) &&
      r.(includedWords := s.includedWords) == s
  {
    ToggledMembers(s.includedWords, s.currWord);
    if NoDuplicates(s.includedWords) {
      ToggledNoDuplicates(s.includedWords, s.currWord);
    }
  }

  /** What every step keeps: the check-list cursor on an item, the included
      items valid and distinct, the value cursor and the committed index
      non-negative. Nothing bounds them from above. */
  predicate ListInvariant(s: ListState) {
    0 <= s.currWord < |CheckListItems| && s.cursor >= 0 && s.committed >= 0 &&
    NoDuplicates(s.includedWords) &&
    forall k :: 0 <= k < |s.includedWords| ==> 0 <= s.includedWords[k] < |CheckListItems|
  }

  /** A new prompt starts inside the invariant. */
  lemma InitialListInvariant()
    ensures ListInvariant(InitialList)
  {
  }

  lemma ListStepKeepsInvariant(s: ListState, key: Key, table: seq<string>)
    requires ListInvariant(s)
    ensures ListInvariant(ListStep(s, key, table).0)
  {
    if key == Enter && s.inCheckList {
      CheckListEnterToggles(s, table);
      var r := ListStep(s, key, table).0;
      forall k | 0 <= k < |r.includedWords|
        ensures 0 <= r.includedWords[k] < |CheckListItems|
      {
        assert r.includedWords[k] in r.includedWords;
        if r.includedWords[k] != s.currWord {
          var i :| 0 <= i < |s.includedWords| && s.includedWords[i] == r.includedWords[k];
        }
      }
    }
  }

  /** Config of WordPrompt and TimePrompt. It indexes the table with the
      committed preset, which panics when that lies outside the table. */
  function ListConfig(s: ListState, forTime: bool): (r: Result<Config>)
    ensures r.Ok? <==> 0 <= s.committed < 4
    ensures r.Ok? ==>
      r.value.punctuation == (PUNCTUATION in s.includedWords) &&
      r.value.number == (NUMBER in s.includedWords) &&
      r.value.quoteLen == 0 &&
      (forTime ==> r.value.duration == [15, 30, 60, 120][s.committed] && r.value.words == 0) &&
      (!forTime ==> r.value.words == [10, 25, 50, 100][s.committed] && r.value.duration == 0)
  {
    var table := if forTime then DurationChoices else WordCountChoices;
    if !(0 <= s.committed < |table|) then Failure(IndexOutOfRange)
    else
      ChoiceValues();
      var v := Atoi(table[s.committed]);
      Ok(Config(PUNCTUATION in s.includedWords, NUMBER in s.includedWords,
                if forTime then 0 else v, if forTime then v else 0, 0))
  }

  /** The presets read as the numbers they spell. */
  lemma ChoiceValues()
    ensures Atoi(WordCountChoices[0]) == 10 && Atoi(WordCountChoices[1]) == 25
    ensures Atoi(WordCountChoices[2]) == 50 && Atoi(WordCountChoices[3]) == 100
    ensures Atoi(DurationChoices[0]) == 15 && Atoi(DurationChoices[1]) == 30
    ensures Atoi(DurationChoices[2]) == 60 && Atoi(DurationChoices[3]) == 120
  {
    TwoDigits('1', '0');
    TwoDigits('2', '5');
    TwoDigits('5', '0');
    TwoDigits('1', '5');
    TwoDigits('3', '0');
    TwoDigits('6', '0');
    ThreeDigits('1', '0', '0');
    ThreeDigits('1', '2', '0');
  }

  lemma TwoDigits(a: char, b: char)
    requires '0' <= a <= '9' && '0' <= b <= '9'
    ensures Atoi([a, b]) == 10 * (a as int - '0' as int) + (b as int - '0' as int)
  {
    assert [a, b][..1] == [a] && [a][..0] == [];
    assert DecimalValue([a]) == a as int - '0' as int;
    assert IsDigits([a, b]);
  }

  lemma ThreeDigits(a: char, b: char, c: char)
    requires '0' <= a <= '9' && '0' <= b <= '9' && '0' <= c <= '9'
    ensures Atoi([a, b, c]) == 100 * (a as int - '0' as int) + 10 * (b as int - '0' as int) + (c as int - '0' as int)
  {
    assert [a, b, c][..2] == [a, b] && [a, b][..1] == [a] && [a][..0] == [];
    assert DecimalValue([a]) == a as int - '0' as int;
    assert DecimalValue([a, b]) == 10 * (a as int - '0' as int) + (b as int - '0' as int);
    assert IsDigits([a, b, c]);
  }

  class ListPrompt {
    /** TimePrompt when set, WordPrompt otherwise. */
    const forTime: bool
    var includedWords: seq<int>
    var currWord: int
    var committed: int
    var cursor: int
    var inCheckList: bool
    var inPrompt: bool

    function Table(): seq<string> {
      if forTime then DurationChoices else WordCountChoices
    }

    function State(): ListState
      reads this
    {
      ListState(includedWords, currWord, committed, cursor, inCheckList, inPrompt)
    }

    constructor (forTime: bool)
      ensures this.forTime == forTime && State() == InitialList
      ensures ListInvariant(State())
    {
      this.forTime := forTime;
      includedWords := [];
      currWord := 0;
      committed := 2;
      cursor := 0;
      inCheckList := true;
      inPrompt := false;
    }

    method Update(key: Key) returns (done: bool)
      modifies this
      ensures (State(), done) == ListStep(old(State()), key, Table())
    {
      done := false;
      match key {
        case Down =>
          if !inPrompt {
            currWord := 0;
            inCheckList := true;
            inPrompt := true;
            return false;
          }
          if inCheckList {
            if currWord < |CheckListItems| - 1 {
              currWord := currWord + 1;
            } else {
              currWord := 0;
            }
          } else {
            if committed < |Table()| - 1 {
              cursor := cursor + 1;
            } else {
              cursor := 0;
            }
          }
        case Up =>
          if inCheckList {
            if currWord > 0 {
              currWord := currWord - 1;
            } else {
              inPrompt := false;
              return true;
            }
          } else {
            if cursor > 0 {
              cursor := cursor - 1;
            } else {
              inPrompt := false;
              return true;
            }
          }
        case Left =>
          inCheckList := !inCheckList;
        case Right =>
          inCheckList := !inCheckList;
        case Enter =>
          if inCheckList {
            var present := Contains(includedWords, currWord);
            if !present {
              includedWords := includedWords + [currWord];
            } else {
              var newList: seq<int> := [];
              var i := 0;
              while i < |includedWords|
                invariant 0 <= i <= |includedWords|
                invariant newList == Without(includedWords[..i], currWord)
              {
                assert includedWords[..i + 1][..i] == includedWords[..i];
                if includedWords[i] != currWord {
                  newList := newList + [includedWords[i]];
                }
                i := i + 1;
              }
              assert includedWords[..i] == includedWords;
              includedWords := newList;
            }
          } else {
            committed := cursor;
          }
        case _ =>
      }
    }
  }

  // ---------------------------------------------------------------------
  // Quote prompt

  datatype QuoteState = QuoteState(qType: int, inPrompt: bool)

  /** Update of QuotePrompt: Up moves up or, at the top, leaves the prompt;
      Down enters the prompt or, once in it, moves down until the last
      category. */
  function QuoteStep(s: QuoteState, key: Key): (QuoteState, bool) {
    match key
    case Up =>
      if s.qType == 0 then (s.(inPrompt := false), true)
      else (s.(qType := s.qType - 1), false)
    case Down =>
      if s.qType < |QuoteTypes| - 1 && s.inPrompt then (s.(qType := s.qType + 1), false)
      else (s.(inPrompt := true), false)
    case _ => (s, false)
  }

  /** The category stays one of the quote types; the prompt is left exactly
      on Up at the first category, which clears inPrompt; Down advances only
      from inside the prompt and otherwise enters it. */
  lemma QuoteStepProperties(s: QuoteState, key: Key)
    ensures 0 <= s.qType < |QuoteTypes| ==> 0 <= QuoteStep(s, key).0.qType < |QuoteTypes|
    ensures QuoteStep(s, key).1 <==> key == Up && s.qType == 0
    ensures QuoteStep(s, key).1 ==> !QuoteStep(s, key).0.inPrompt
    ensures key == Down && QuoteStep(s, key).0.qType != s.qType ==>
      s.inPrompt && QuoteStep(s, key).0.qType == s.qType + 1
    ensures key == Down && !s.inPrompt ==> QuoteStep(s, key).0 == s.(inPrompt := true)
  {
  }

  /** Config of QuotePrompt: a quote test of the chosen category. */
  function QuoteConfig(s: QuoteState): (c: Config)
    ensures c.quoteLen == s.qType
  {
    Config(false, false, 0, 0, s.qType)
  }

  /** The category a quote prompt keeps always names a quote file, so the
      quote test can only fail for a file without a non-empty line. */
  lemma QuoteConfigNamesCategory(s: QuoteState, files: map<string, string>, pick: int)
    requires 0 <= s.qType < |QuoteTypes|
    ensures QuoteText(QuoteConfig(s), files, pick) != Failure(IndexOutOfRange)
  {
  }

  class QuotePrompt {
    var qType: int
    var inPrompt: bool

    function State(): QuoteState
      reads this
    {
      QuoteState(qType, inPrompt)
    }

    constructor ()
      ensures State() == QuoteState(0, false)
    {
      qType := 0;
      inPrompt := false;
    }

    method Update(key: Key) returns (done: bool)
      modifies this
      ensures (State(), done) == QuoteStep(old(State()), key)
    {
      match key {
        case Up =>
          if qType == 0 {
            inPrompt := false;
            return true;
          }
          qType := qType - 1;
        case Down =>
          if qType < |QuoteTypes| - 1 && inPrompt {
            qType := qType + 1;
          } else {
            inPrompt := true;
          }
        case _ =>
      }
      return false;
    }
  }

  // ---------------------------------------------------------------------
  // The menu

  /** The menu's own fields and the state of the three prompts. */
  datatype Screen = Screen(testType: int, inPrompt: bool, word: ListState, time: ListState, quote: QuoteState)

  /** What the menu hands back: stay on it, start a test, or the panic of a
      prompt's Config. */
  datatype MenuNext = Stay | StartTest(kind: int, config: Config) | Crash(fault: Fault)

  /** Left on the menu: the previous test kind, wrapping to the last. */
  function PrevKind(t: int): (r: int)
    ensures 0 <= t < KindCount ==> r == (t + KindCount - 1) % KindCount
  {
    if t > 0 then t - 1 else KindCount - 1
  }

  /** Right on the menu: the next test kind, wrapping to the first. */
  function NextKind(t: int): (r: int)
    ensures 0 <= t < KindCount ==> r == (t + 1) % KindCount
  {
    if t < KindCount - 1 then t + 1 else 0
  }

  /** The key handed to the prompt of the current kind. */
  function Forward(s: Screen, key: Key): (Screen, bool) {
    if s.testType == TEST_WORD then
      var (w, done) := ListStep(s.word, key, WordCountChoices); (s.(word := w), done)
    else if s.testType == TEST_TIME then
      var (t, done) := ListStep(s.time, key, DurationChoices); (s.(time := t), done)
    else
      var (q, done) := QuoteStep(s.quote, key); (s.(quote := q), done)
  }

  /** The test the `s` key starts: the current kind and its prompt's Config. */
  function Start(s: Screen): MenuNext {
    var conf :=
      if s.testType == TEST_WORD then ListConfig(s.word, false)
      else if s.testType == TEST_TIME then ListConfig(s.time, true)
      else Ok(QuoteConfig(s.quote));
    if conf.Ok? then StartTest(s.testType, conf.value) else Crash(conf.fault)
  }

  /** Menu.Update. */
  function MenuStep(s: Screen, key: Key): (Screen, MenuNext) {
    if key == Rune('s') then (s, Start(s))
    else if s.inPrompt then
      var (f, done) := Forward(s, key);
      (if done then f.(inPrompt := false) else f, Stay)
    else
      match key
      case Left => (s.(testType := PrevKind(s.testType)), Stay)
      case Right => (s.(testType := NextKind(s.testType)), Stay)
      case Down => (Forward(s, key).0.(inPrompt := true), Stay)
      case _ => (s, Stay)
  }

  /** The `s` key starts a test of the current kind with that prompt's
      configuration, in or out of a prompt, and changes nothing. */
  lemma MenuStartsTest(s: Screen)
    requires 0 <= s.testType < KindCount
    ensures MenuStep(s, Rune('s')).0 == s
    ensures var next := MenuStep(s, Rune('s')).1;
      (s.testType == TEST_QUOTE ==> next == StartTest(TEST_QUOTE, QuoteConfig(s.quote))) &&
      (s.testType == TEST_WORD ==>
        (next.StartTest? <==> 0 <= s.word.committed < 4) &&
        (next.StartTest? ==> next == StartTest(TEST_WORD, ListConfig(s.word, false).value))) &&
      (s.testType == TEST_TIME ==>
        (next.StartTest? <==> 0 <= s.time.committed < 4) &&
        (next.StartTest? ==> next == StartTest(TEST_TIME, ListConfig(s.time, true).value)))
  {
  }

  /** Every key keeps the test kind one of the three. */
  lemma MenuKeepsKind(s: Screen, key: Key)
    requires 0 <= s.testType < KindCount
    ensures 0 <= MenuStep(s, key).0.testType < KindCount
  {
  }

  /** Left and Right outside a prompt cycle the kind and change nothing else. */
  lemma MenuLeftRightCycle(s: Screen, key: Key)
    requires !s.inPrompt && 0 <= s.testType < KindCount && (key == Left || key == Right)
    ensures MenuStep(s, key) ==
      (s.(testType := (s.testType + (if key == Left then KindCount - 1 else 1)) % KindCount), Stay)
  {
  }

  /** Down outside a prompt enters the current prompt and hands it the key;
      inside a prompt every key but `s` goes to the prompt, and the menu
      leaves the prompt exactly when the prompt says so. The kind never
      changes while a prompt has the keys. */
  lemma MenuPromptHandling(s: Screen, key: Key)
    requires key != Rune('s')
    ensures !s.inPrompt && key == Down ==> MenuStep(s, key).0 == Forward(s, key).0.(inPrompt := true)
    ensures s.inPrompt ==>
      MenuStep(s, key).0.(inPrompt := true) == Forward(s, key).0.(inPrompt := true) &&
      (MenuStep(s, key).0.inPrompt <==> !Forward(s, key).1)
    ensures s.inPrompt || key == Down ==> MenuStep(s, key).0.testType == s.testType
    ensures !s.inPrompt && key !in {Left, Right, Down} ==> MenuStep(s, key).0 == s
    ensures MenuStep(s, key).1 == Stay
  {
    if s.inPrompt {
      var (f, done) := Forward(s, key);
      assert f.inPrompt == s.inPrompt;
    }
  }

  /** Keys handed to a word or time prompt, first to last. */
  function ListReplay(s: ListState, keys: seq<Key>, table: seq<string>): ListState
    decreases |keys|
  {
    if keys == [] then s else ListReplay(ListStep(s, keys[0], table).0, keys[1..], table)
  }

  /** The six states of the toggle scenario, one key at a time. */
  lemma ToggleSteps(t: seq<string>)
    ensures ListStep(InitialList, Down, t).0 == ListState([], 0, 2, 0, true, true)
    ensures ListStep(ListState([], 0, 2, 0, true, true), Enter, t).0 == ListState([0], 0, 2, 0, true, true)
    ensures ListStep(ListState([0], 0, 2, 0, true, true), Down, t).0 == ListState([0], 1, 2, 0, true, true)
    ensures ListStep(ListState([0], 1, 2, 0, true, true), Enter, t).0 == ListState([0, 1], 1, 2, 0, true, true)
    ensures ListStep(ListState([0, 1], 1, 2, 0, true, true), Up, t).0 == ListState([0, 1], 0, 2, 0, true, true)
    ensures ListStep(ListState([0, 1], 0, 2, 0, true, true), Enter, t).0 == ListState([1], 0, 2, 0, true, true)
  {
    ToggleValues();
  }

  lemma ToggleValues()
    ensures Toggled([], 0) == [0] && Toggled([0], 1) == [0, 1] && Toggled([0, 1], 0) == [1]
  {
    assert Toggled([], 0) == [0];
    assert Toggled([0], 1) == [0, 1] by {
      assert 1 !in [0];
      assert [0] + [1] == [0, 1];
    }
    assert Toggled([0, 1], 0) == [1] by {
      assert 0 in [0, 1];
      assert [0, 1][..1] == [0] && [0][..0] == [];
      assert Without([0], 0) == [];
      assert Without([0, 1], 0) == [1];
    }
  }

  /** Toggling punctuation, then numbers, then punctuation again leaves a
      word prompt configured for numbers only. */
  lemma ToggleScenario()
    ensures var s := ListReplay(InitialList, [Down, Enter, Down, Enter, Up, Enter], WordCountChoices);
      s.includedWords == [NUMBER] && ListConfig(s, false) == Ok(Config(false, true, 50, 0, 0))
  {
    var t := WordCountChoices;
    ToggleSteps(t);
    var s6 := ListState([1], 0, 2, 0, true, true);
    assert ListReplay(ListState([0, 1], 0, 2, 0, true, true), [Enter], t) == s6;
    assert ListReplay(ListState([0, 1], 1, 2, 0, true, true), [Up, Enter], t) == s6;
    assert ListReplay(ListState([0], 1, 2, 0, true, true), [Enter, Up, Enter], t) == s6;
    assert ListReplay(ListState([0], 0, 2, 0, true, true), [Down, Enter, Up, Enter], t) == s6;
    assert ListReplay(ListState([], 0, 2, 0, true, true), [Enter, Down, Enter, Up, Enter], t) == s6;
    assert ListReplay(InitialList, [Down, Enter, Down, Enter, Up, Enter], t) == s6;
    assert PUNCTUATION !in [1];
  }

  /** Because Down on the value list tests the committed index, the cursor
      runs past the four presets, and committing it makes Config panic. */
  lemma CursorEscapesTable()
    ensures var s := ListReplay(InitialList, [Down, Right, Down, Down, Down, Down, Enter], WordCountChoices);
      s.cursor == 4 && s.committed == 4 && ListConfig(s, false) == Failure(IndexOutOfRange)
  {
    var t := WordCountChoices;
    var s1 := ListState([], 0, 2, 0, true, true);
    var s2 := s1.(inCheckList := false);
    assert ListStep(InitialList, Down, t).0 == s1;
    assert ListStep(s1, Right, t).0 == s2;
    assert ListStep(s2, Down, t).0 == s2.(cursor := 1);
    assert ListStep(s2.(cursor := 1), Down, t).0 == s2.(cursor := 2);
    assert ListStep(s2.(cursor := 2), Down, t).0 == s2.(cursor := 3);
    assert ListStep(s2.(cursor := 3), Down, t).0 == s2.(cursor := 4);
    assert ListStep(s2.(cursor := 4), Enter, t).0 == s2.(cursor := 4, committed := 4);
    var last := s2.(cursor := 4, committed := 4);
    assert ListReplay(last, [], t) == last;
    assert ListReplay(s2.(cursor := 4), [Enter], t) == last;
    assert ListReplay(s2.(cursor := 3), [Down, Enter], t) == last;
    assert ListReplay(s2.(cursor := 2), [Down, Down, Enter], t) == last;
    assert ListReplay(s2.(cursor := 1), [Down, Down, Down, Enter], t) == last;
    assert ListReplay(s2, [Down, Down, Down, Down, Enter], t) == last;
    assert ListReplay(s1, [Right, Down, Down, Down, Down, Enter], t) == last;
  }

  class Menu {
    var testType: int
    var inPrompt: bool
    /** The prompts of the global TestTypes table. */
    const word: ListPrompt
    const time: ListPrompt
    const quote: QuotePrompt

    ghost predicate Valid()
      reads this
    {
      0 <= testType < KindCount && !word.forTime && time.forTime && word != time
    }

    function Snapshot(): Screen
      reads this, word, time, quote
    {
      Screen(testType, inPrompt, word.State(), time.State(), quote.State())
    }

    /** NewMenu over the existing prompts: the word kind, no prompt entered. */
    constructor (word: ListPrompt, time: ListPrompt, quote: QuotePrompt)
      requires !word.forTime && time.forTime && word != time
      ensures this.word == word && this.time == time && this.quote == quote
      ensures testType == TEST_WORD && !inPrompt && Valid()
    {
      testType := TEST_WORD;
      inPrompt := false;
      this.word := word;
      this.time := time;
      this.quote := quote;
    }

    method Update(key: Key) returns (next: MenuNext)
      requires Valid()
      modifies this, word, time, quote
      ensures Valid()
      ensures (Snapshot(), next) == MenuStep(old(Snapshot()), key)
    {
      if key == Rune('s') {
        if testType == TEST_WORD {
          var c := ListConfig(word.State(), false);
          next := if c.Ok? then StartTest(testType, c.value) else Crash(c.fault);
        } else if testType == TEST_TIME {
          var c := ListConfig(time.State(), true);
          next := if c.Ok? then StartTest(testType, c.value) else Crash(c.fault);
        } else {
          next := StartTest(testType, QuoteConfig(quote.State()));
        }
        return;
      }
      next := Stay;
      if inPrompt {
        var done := ForwardKey(key);
        if done {
          inPrompt := false;
        }
      } else {
        match key {
          case Left =>
            if testType > 0 {
              testType := testType - 1;
            } else {
              testType := KindCount - 1;
            }
          case Right =>
            if testType < KindCount - 1 {
              testType := testType + 1;
            } else {
              testType := 0;
            }
          case Down =>
            inPrompt := true;
            var _ := ForwardKey(key);
          case _ =>
        }
      }
    }

    /** TestTypes[m.testType].Update(k). */
    method ForwardKey(key: Key) returns (done: bool)
      requires Valid()
      modifies word, time, quote
      ensures Valid()
      ensures var (f, d) := Forward(old(Snapshot()), key);
        done == d && Snapshot() == f.(inPrompt := inPrompt)
    {
      if testType == TEST_WORD {
        done := word.Update(key);
      } else if testType == TEST_TIME {
        done := time.Update(key);
      } else {
        done := quote.Update(key);
      }
    }
  }
}
