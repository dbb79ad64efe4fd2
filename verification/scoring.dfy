/**
 * `Score` (score.py): counters of correct and incorrect words, the total,
 * and the characters of correct words, plus optional start and end
 * timestamps from which elapsed minutes, WPM, CPM and accuracy derive.
 * `time.time()` becomes a `real` timestamp passed to `Start` and `End`;
 * the float metrics are computed over `real`.
 */
module Scoring {
  import opened Wrappers

  datatype Score = Score(
    correctWords: nat,
    incorrectWords: nat,
    totalWords: nat,
    correctChars: nat,
    startTime: Option<real>,
    endTime: Option<real>)

  /** The floor on elapsed minutes that keeps the rates finite (1e-6). */
  const MinElapsed: real := 0.000001

  /** The bookkeeping invariant the methods of `Score` maintain. */
  predicate Valid(s: Score) {
    s.totalWords == s.correctWords + s.incorrectWords
  }

  /** `Score.__init__`: all counters zero, no timestamps. */
  function NewScore(): (s: Score)
    ensures Valid(s)
    ensures s.correctWords == 0 && s.incorrectWords == 0 && s.totalWords == 0 && s.correctChars == 0
    ensures s.startTime.None? && s.endTime.None?
  {
    Score(0, 0, 0, 0, None, None)
  }

  /** `start`: records `now` as the start time, replacing any earlier one. */
  function Start(s: Score, now: real): (s': Score)
    ensures s'.startTime == Some(now)
    ensures s' == s.(startTime := s'.startTime)
  {
    s.(startTime := Some(now))
  }

  /** `end`: records `now` as the end time, replacing any earlier one. */
  function End(s: Score, now: real): (s': Score)
    ensures s'.endTime == Some(now)
    ensures s' == s.(endTime := s'.endTime)
  {
    s.(endTime := Some(now))
  }

  /** `add_correct(word)`: one more correct word, `|word|` more correct characters. */
  function AddCorrect(s: Score, word: string): (s': Score)
    ensures s'.correctWords == s.correctWords + 1
    ensures s'.totalWords == s.totalWords + 1
    ensures s'.correctChars == s.correctChars + |word|
    ensures s'.incorrectWords == s.incorrectWords
    ensures s'.startTime == s.startTime && s'.endTime == s.endTime
    ensures Valid(s) ==> Valid(s')
  {
    s.(correctWords := s.correctWords + 1,
       totalWords := s.totalWords + 1,
       correctChars := s.correctChars + |word|)
  }

  /** `add_incorrect()`: one more incorrect word; correct counts untouched. */
  function AddIncorrect(s: Score): (s': Score)
    ensures s'.incorrectWords == s.incorrectWords + 1
    ensures s'.totalWords == s.totalWords + 1
    ensures s'.correctWords == s.correctWords && s'.correctChars == s.correctChars
    ensures s'.startTime == s.startTime && s'.endTime == s.endTime
    ensures Valid(s) ==> Valid(s')
  {
    s.(incorrectWords := s.incorrectWords + 1, totalWords := s.totalWords + 1)
  }

  /** `get_elapsed_minutes`: the time between start and end in minutes, never
      below `MinElapsed`; exactly `MinElapsed` when a timestamp is missing or
      the interval is that short, zero or negative. */
  function ElapsedMinutes(s: Score): (m: real)
    ensures m >= MinElapsed
    ensures s.startTime.None? || s.endTime.None? ==> m == MinElapsed
    ensures s.startTime.Some? && s.endTime.Some? && s.endTime.value <= s.startTime.value ==> m == MinElapsed
    ensures s.startTime.Some? && s.endTime.Some? && (s.endTime.value - s.startTime.value) / 60.0 < MinElapsed
            ==> m == MinElapsed
    ensures s.startTime.Some? && s.endTime.Some? && (s.endTime.value - s.startTime.value) / 60.0 >= MinElapsed
            ==> m == (s.endTime.value - s.startTime.value) / 60.0
  {
    if s.startTime.None? || s.endTime.None? then MinElapsed
    else
      var elapsed := (s.endTime.value - s.startTime.value) / 60.0;
      if elapsed > MinElapsed then elapsed else MinElapsed
  }

  /** `get_wpm`: correct words per elapsed minute. */
  function Wpm(s: Score): (r: real)
    ensures r >= 0.0
    ensures r * ElapsedMinutes(s) == s.correctWords as real
  {
    s.correctWords as real / ElapsedMinutes(s)
  }

  /** `get_cpm`: correct characters per elapsed minute. */
  function Cpm(s: Score): (r: real)
    ensures r >= 0.0
    ensures r * ElapsedMinutes(s) == s.correctChars as real
  {
    s.correctChars as real / ElapsedMinutes(s)
  }

  /** `get_accuracy`: the percentage of submitted words that were correct,
      and 0 before any word is submitted. */
  function Accuracy(s: Score): (a: real)
    ensures s.totalWords == 0 ==> a == 0.0
    ensures s.totalWords > 0 ==> a * s.totalWords as real == 100.0 * s.correctWords as real
    ensures Valid(s) ==> 0.0 <= a <= 100.0
  {
    if s.totalWords == 0 then 0.0
    else (s.correctWords as real / s.totalWords as real) * 100.0
  }

  /** Accuracy is 100 exactly when at least one word was submitted and none
      was wrong. */
  lemma {:induction false} AccuracyFullIff(s: Score)
    requires Valid(s)
    ensures Accuracy(s) == 100.0 <==> s.totalWords > 0 && s.incorrectWords == 0
  {
    if s.totalWords > 0 {
      var total := s.totalWords as real;
      var correct := s.correctWords as real;
      assert Accuracy(s) * total == 100.0 * correct;
      if s.incorrectWords == 0 {
        assert correct == total;
        assert correct / total == 1.0;
      }
      if Accuracy(s) == 100.0 {
        assert 100.0 * total == 100.0 * correct;
      }
    }
  }

  /** Any score with three correct words out of four submitted has
      accuracy 75 percent. */
  lemma AccuracyThreeOfFour(s: Score)
    requires s.correctWords == 3 && s.totalWords == 4
    ensures Accuracy(s) == 75.0
  {
    assert Accuracy(s) * 4.0 == 300.0;
  }

  /** When start and end are `60 * minutes` seconds apart (at least the
      floor), WPM and CPM are the counts divided by those minutes. */
  lemma RatesOverInterval(s: Score, t0: real, minutes: real)
    requires minutes >= MinElapsed
    ensures Wpm(End(Start(s, t0), t0 + 60.0 * minutes)) == s.correctWords as real / minutes
    ensures Cpm(End(Start(s, t0), t0 + 60.0 * minutes)) == s.correctChars as real / minutes
  {
    var s' := End(Start(s, t0), t0 + 60.0 * minutes);
    assert ElapsedMinutes(s') == minutes;
  }

  /** A wrong submission leaves both rates unchanged. */
  lemma IncorrectKeepsRates(s: Score)
    ensures Wpm(AddIncorrect(s)) == Wpm(s)
    ensures Cpm(AddIncorrect(s)) == Cpm(s)
  {
    assert ElapsedMinutes(AddIncorrect(s)) == ElapsedMinutes(s);
  }

  /** One word submission, as the user interface reports it. */
  datatype Submission = Correct(word: string) | Incorrect

  /** The `Score` call a submission triggers. */
  function Record(s: Score, sub: Submission): Score {
    match sub
    case Correct(w) => AddCorrect(s, w)
    case Incorrect => AddIncorrect(s)
  }

  /** A whole trial's submissions recorded in order. */
  function RecordAll(s: Score, subs: seq<Submission>): Score
    decreases |subs|
  {
    if subs == [] then s else RecordAll(Record(s, subs[0]), subs[1..])
  }

  /** Number of correct submissions. */
  function CountCorrect(subs: seq<Submission>): nat {
    if subs == [] then 0 else (if subs[0].Correct? then 1 else 0) + CountCorrect(subs[1..])
  }

  /** Total length of the correctly submitted words. */
  function CorrectLength(subs: seq<Submission>): nat {
    if subs == [] then 0
    else (if subs[0].Correct? then |subs[0].word| else 0) + CorrectLength(subs[1..])
  }

  /** Recording a trial adds to each counter exactly what the submissions
      contain, keeps the timestamps, and keeps the total invariant. */
  lemma {:induction false} RecordAllCounts(s: Score, subs: seq<Submission>)
    ensures RecordAll(s, subs).correctWords == s.correctWords + CountCorrect(subs)
    ensures RecordAll(s, subs).incorrectWords == s.incorrectWords + (|subs| - CountCorrect(subs))
    ensures RecordAll(s, subs).totalWords == s.totalWords + |subs|
    ensures RecordAll(s, subs).correctChars == s.correctChars + CorrectLength(subs)
    ensures RecordAll(s, subs).startTime == s.startTime && RecordAll(s, subs).endTime == s.endTime
    ensures Valid(s) ==> Valid(RecordAll(s, subs))
    decreases |subs|
  {
    if subs != [] {
      RecordAllCounts(Record(s, subs[0]), subs[1..]);
    }
  }

  /** Two short trials: "cat" then "dog" give 2 correct words and 6
      characters; two misses give 2 incorrect words and no characters. */
  lemma RecordExamples()
    ensures var s := AddCorrect(AddCorrect(NewScore(), "cat"), "dog");
            s.correctWords == 2 && s.totalWords == 2 && s.correctChars == 6
    ensures var s := AddIncorrect(AddIncorrect(NewScore()));
            s.incorrectWords == 2 && s.totalWords == 2 && s.correctChars == 0
  {
  }
}
