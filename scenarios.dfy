/** Client code driving the screens through their contracts alone. */
module Scenarios {
  import opened Base
  import opened GoStrings
  import opened TypingTest
  import opened Selection

  /** A word test whose text is "cat dog", typed without a mistake: the
      last key finishes it with all seven characters correct. The text is
      set directly rather than drawn by GenerateText, whose result goes
      through Fields and the shuffle of a corpus; proving a concrete
      outcome of that here would cost far more than the typing itself. */
  method TypeCatDog() {
    var t := new Test(TEST_WORD, Config(false, false, 2, 0, 0));
    t.txt, t.words := "cat dog", 2;
    var m: Option<Metric> := None;
    var i := 0;
    while i < 7
      invariant 0 <= i <= 7 && t.Valid()
      invariant t.kind == TEST_WORD && t.txt == "cat dog" && t.words == 2 && t.typedTxt == "cat dog"[..i]
      invariant t.typedWords == (if i >= 4 then 1 else 0)
      invariant t.startTime == (if i > 0 then 10 else 0)
      invariant i > 0 ==> m == Verdict(t.kind, t.config, t.txt, t.words, t.Typed(), 9 + i)
      invariant i < 7 ==> m == None
      modifies t
    {
      assert "cat dog"[..i + 1] == "cat dog"[..i] + ["cat dog"[i]];
      m := t.Update(Rune("cat dog"[i]), 10 + i);
      i := i + 1;
    }
    assert "cat dog"[..7] == "cat dog";
    CorrectOfCatDog();
    assert m == Some(Metric(6, 7, 7));
  }

  /** On the word prompt the cursor of the value list runs past the four
      presets; committing it makes `s` a panic instead of a test. */
  method CursorQuirk() {
    var word := new ListPrompt(false);
    var time := new ListPrompt(true);
    var quote := new QuotePrompt();
    var menu := new Menu(word, time, quote);
    var next := menu.Update(Down);
    assert word.State() == ListState([], 0, 2, 0, true, true) && menu.inPrompt;
    next := menu.Update(Right);
    assert word.State() == ListState([], 0, 2, 0, false, true) && menu.inPrompt;
    var presses := 0;
    while presses < 4
      invariant 0 <= presses <= 4 && menu.Valid() && menu.inPrompt && menu.testType == TEST_WORD
      invariant word.State() == ListState([], 0, 2, presses, false, true)
      modifies menu, word, time, quote
    {
      next := menu.Update(Down);
      presses := presses + 1;
    }
    next := menu.Update(Enter);
    assert word.committed == 4;
    next := menu.Update(Rune('s'));
    assert next == Crash(IndexOutOfRange);
  }
}
