/**
 * `TypingTestLogic` (logic.py): the word source. Construction keeps the
 * loaded word list when loading succeeds with a non-empty list and falls
 * back to the one-word list ["default"] otherwise; `get_word` picks one
 * word of the list. The loader's outcome is a parameter (`None` when it
 * raised), and `random.choice` becomes an index chosen by the caller.
 */
module TypingLogic {
  import opened Wrappers
  import WordData

  datatype TypingTestLogic = TypingTestLogic(words: seq<string>)

  /** The list substituted when the word file cannot be used. */
  const DefaultWords: seq<string> := ["default"]

  /** `TypingTestLogic.__init__`: a failed load (`None`) and an empty list
      both end in the fallback; any other list is kept as it is. */
  function NewLogic(loaded: Option<seq<string>>): (logic: TypingTestLogic)
    ensures |logic.words| > 0
    ensures loaded.Some? && loaded.value != [] ==> logic.words == loaded.value
    ensures loaded.None? || loaded.value == [] ==> logic.words == DefaultWords
  {
    match loaded
    case Some(ws) => if ws != [] then TypingTestLogic(ws) else TypingTestLogic(DefaultWords)
    case None => TypingTestLogic(DefaultWords)
  }

  /** The whole start-up path: the file's lines (or `None` when opening or
      reading it failed) cleaned by `get_word_list`, then the fallback rule.
      Every word the test can show is non-empty and has no surrounding
      whitespace, and is either the strip of a line of the file or "default". */
  function LoadFromFile(file: Option<seq<string>>): (logic: TypingTestLogic)
    ensures |logic.words| > 0
    ensures forall k :: 0 <= k < |logic.words| ==>
              logic.words[k] != "" && WordData.Strip(logic.words[k]) == logic.words[k]
    ensures file.Some? && WordData.CleanLines(file.value) != [] ==> logic.words == WordData.CleanLines(file.value)
    ensures file.None? || WordData.CleanLines(file.value) == [] ==> logic.words == DefaultWords
  {
    var loaded := match file
      case Some(lines) => Some(WordData.CleanLines(lines))
      case None => None;
    var logic := NewLogic(loaded);
    WordData.StripOfTrimmed("default");
    WordData.CleanWordsAreStripped(if file.Some? then file.value else []);
    logic
  }

  /** `get_word`: `random.choice(self.words)` with the random index passed in.
      The result is always a word of the list. */
  function GetWord(logic: TypingTestLogic, i: nat): (w: string)
    requires i < |logic.words|
    ensures w in logic.words
  {
    logic.words[i]
  }

  /** Every word of the list is a possible outcome of `get_word`, so the
      choice ranges over exactly the list. */
  lemma GetWordCoversList(logic: TypingTestLogic, w: string)
    requires w in logic.words
    ensures exists i: nat :: i < |logic.words| && GetWord(logic, i) == w
  {
    var i :| 0 <= i < |logic.words| && logic.words[i] == w;
    assert GetWord(logic, i) == w;
  }
}
