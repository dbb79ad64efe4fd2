# Typing speed test — a Dafny model of its core

The application shows random words from a dictionary file and times the user
with a countdown. It then reports words per minute (WPM), characters per
minute (CPM) and accuracy. This project models the logic behind that:

- `WordData` (`word_data.dfy`) models the pure part of `get_word_list`. It
  strips each line of the word file and drops the lines that are blank once
  stripped. Stripping uses Python's `str.isspace()` character set.
- `TypingLogic` (`typing_logic.dfy`) models `TypingTestLogic`. Construction
  keeps a loaded, non-empty word list and otherwise falls back to
  `["default"]`. `get_word` picks one word of the list.
- `Scoring` (`scoring.dfy`) models the `Score` record. It holds the word and
  character counters and the optional start and end timestamps, and derives
  elapsed minutes, WPM, CPM and accuracy from them.
- `Countdown` (`countdown.dfy`) models the `Timer` countdown as a transition
  system. Each transition returns the new state together with the
  callbacks it invoked.
- `Wrappers` (`wrappers.dfy`) holds the `Option` type.

Every operation is a pure function over an immutable datatype. The
surroundings become parameters:

- the current time (`time.time()`) is a `real` timestamp argument;
- the random choice is an index argument;
- the loader's outcome is an `Option`, where `None` stands for the exception;
- Tkinter's scheduled `_tick` job is a `tickPending` flag. A tick can fire
  only while that flag is set.

The timer's own docstring (timer.py:10-11) says the update callback runs
every second with the remaining time, and the end callback runs "when the
timer reaches zero". The code times these differently, and the model follows
the code:

- For a duration `d`, `start` runs the first tick immediately. The update
  callback therefore receives `d-1, d-2, …, 0`, so 0 is delivered.
- The end callback does not run when the remaining time reaches 0. It runs
  on the following tick, one second after `update_callback(0)`.
- `Countdown.StartRunsFullCountdown` states this sequence.
- The code accepts any integer duration, and so does the model. A timer with
  a zero or negative duration ends on its first tick.

## Model

| member | source | states |
|---|---|---|
| WordData.IsSpace | data.py:13 | the whitespace set `str.strip()` removes: it contains the line terminators `\n` and `\r` and no ASCII letter or digit |
| WordData.Strip | data.py:13 | `line.strip()` has no whitespace at either end and is no longer than the line |
| WordData.StripEmptyIff | data.py:13 | the strip is empty exactly when the line is all whitespace |
| WordData.StripIsInfix | data.py:13 | the strip is the infix left after removing a whitespace run from each end of the line |
| WordData.StripOfTrimmed | data.py:13 | a string with no surrounding whitespace is its own strip |
| WordData.StripIdempotent | data.py:13 | stripping twice equals stripping once |
| WordData.CleanLines | data.py:13 | no output word is empty, none has surrounding whitespace, and there are at most as many words as lines |
| WordData.CleanWordsAreStripped | data.py:13 | every output word equals its own strip |
| WordData.Keep | data.py:13 | one line contributes nothing exactly when it is all whitespace, and otherwise its non-empty strip |
| WordData.CleanLinesSingle | data.py:13 | a single line contributes nothing if it is all whitespace, and otherwise exactly its strip |
| WordData.CleanLinesAppend | data.py:13 | cleaning a concatenation is the concatenation of the cleanings, so each line is handled independently and in order |
| WordData.Survivors | data.py:13 | the indices of non-blank lines: strictly increasing, in range, and containing exactly the lines that are not all whitespace |
| WordData.CleanLinesSelects | data.py:13 | the k-th output word is the strip of the k-th non-blank line, so order is kept and nothing is duplicated or invented |
| WordData.CleanLinesMembership | data.py:13 | a word is in the output exactly when it is non-empty and some line strips to it |
| WordData.BlankLineDropped | data.py:13 | inserting an all-whitespace line anywhere does not change the output |
| WordData.CleanLinesSnoc | data.py:13 | appending a line to the file appends exactly that line's contribution to the output |
| WordData.GetWordList | data.py:12-14 | the comprehension, run as a loop over the lines, computes exactly the cleaned list |
| TypingLogic.NewLogic | logic.py:5-12 | the word list is never empty; a non-empty loaded list is kept unchanged; a failed load or an empty list gives `["default"]` |
| TypingLogic.LoadFromFile | logic.py:5-12 | starting from the word file: a file whose cleaned list is non-empty gives exactly that list; a failed read or an empty cleaned list gives `["default"]`; every word is non-empty and its own strip |
| TypingLogic.GetWord | logic.py:15-16 | the chosen word is an element of the word list |
| TypingLogic.GetWordCoversList | logic.py:15-16 | every word of the list is the outcome of some choice |
| Scoring.NewScore | score.py:4-21 | a fresh score has all counters 0, no timestamps, and satisfies total = correct + incorrect |
| Scoring.Start | score.py:23-30 | `start` sets the start time to the given instant, overwriting any earlier one, and changes nothing else |
| Scoring.End | score.py:32-39 | `end` sets the end time to the given instant and changes nothing else |
| Scoring.AddCorrect | score.py:41-52 | correct and total words each go up by 1 and correct characters by the word's length; the rest is unchanged and the total invariant is kept |
| Scoring.AddIncorrect | score.py:54-63 | incorrect and total words each go up by 1; correct words, characters and timestamps are unchanged and the total invariant is kept |
| Scoring.ElapsedMinutes | score.py:65-78 | elapsed minutes are at least 1e-6; exactly 1e-6 when a timestamp is unset, end <= start, or (end - start) / 60 is below 1e-6; otherwise (end - start) / 60 |
| Scoring.Wpm | score.py:80-88 | WPM is non-negative and times the elapsed minutes gives the correct word count, so the division is never by zero |
| Scoring.Cpm | score.py:90-98 | CPM is non-negative and times the elapsed minutes gives the correct character count |
| Scoring.Accuracy | score.py:100-110 | accuracy is 0 with no words; otherwise accuracy times total equals 100 times correct; under the total invariant it lies in [0, 100] |
| Scoring.AccuracyFullIff | score.py:108-110 | accuracy is 100 exactly when some word was submitted and none was incorrect |
| Scoring.AccuracyThreeOfFour | score.py:108-110 | any score with 3 correct words out of 4 submitted has accuracy 75 |
| Scoring.RatesOverInterval | score.py:75-98 | with start and end 60·m seconds apart (m >= 1e-6), WPM and CPM are the counts divided by m |
| Scoring.IncorrectKeepsRates | score.py:62-63 | an incorrect word changes neither WPM nor CPM |
| Scoring.RecordAllCounts | score.py:41-63 | after a sequence of submissions, each counter grows by the number of correct words, incorrect words, all words and correct characters in it, and the invariant holds |
| Scoring.RecordExamples | score.py:50-63 | "cat" then "dog" give 2 correct words and 6 characters; two misses give 2 incorrect words and 0 characters |
| Countdown.NewTimer | timer.py:26-33 | a new timer has full time left, is not running and has no tick scheduled, and satisfies the invariant |
| Countdown.TickBody | timer.py:41-50 | with time left, the tick decrements it, reports the new value and schedules the next tick, keeping `running`; at 0 it stops and reports the end; duration and callbacks never change |
| Countdown.Start | timer.py:35-39 | `start` is a no-op while running; otherwise it sets the time left to the full duration and ticks at once. With time to count it delivers d-1 and schedules the next tick; with duration <= 0 it stops, keeps the time left at the duration and delivers the end. Duration and callbacks never change, and the invariant is kept |
| Countdown.Tick | timer.py:41-50 | a scheduled tick with time left decrements it, reports the new time, reschedules and keeps `running`; at 0 it stops, reports the end, schedules nothing and leaves the time left unchanged. Duration and callbacks are unchanged, and the invariant is kept |
| Countdown.Stop | timer.py:52-56 | `stop` cancels the scheduled tick and stops the timer, keeping the remaining time, the duration and the callbacks |
| Countdown.Reset | timer.py:58-60 | `reset` leaves the timer stopped, with no tick scheduled, full time left and the same callbacks |
| Countdown.IsRunning | timer.py:62-63 | `is_running` reports the running flag, which in every reachable state means a tick is scheduled |
| Countdown.ReachableInv | timer.py:26-63 | every state reachable from a new timer by any sequence of start, stop, reset and tick events satisfies the invariant |
| Countdown.IsRunningMeansTickScheduled | timer.py:26-63 | in every state reachable from a new timer by any events, `is_running` is true exactly when a tick is scheduled |
| Countdown.TimeLeftInRange | timer.py:29-60 | for a non-negative duration the invariant gives 0 <= time left <= duration |
| Countdown.StartFirstTick | timer.py:35-46 | `start` on a stopped timer with time left ticks at once: it delivers d-1 and schedules the next tick |
| Countdown.FullRunCons | timer.py:42-46 | one more second left puts exactly one more update at the front of the run's callbacks |
| Countdown.DrainCountsDown | timer.py:41-50 | from n seconds left, the ticks deliver n-1, …, 0 and then the end, and leave the timer stopped at 0 |
| Countdown.StartRunsFullCountdown | timer.py:35-50 | `start` and the ticks it causes deliver exactly Update(d-1), …, Update(0), End |
| Countdown.EndDeliveredOnce | timer.py:35-50 | in a full run the end callback is delivered exactly once, as the last callback |
| Countdown.Apply | timer.py:35-60 | every event (start, stop, reset, scheduled tick) preserves the invariant |
| Countdown.Run | timer.py:35-60 | any sequence of events preserves the invariant |
| Countdown.EndsBoundedByStarts | timer.py:35-60 | under any interleaving of events, the end callback runs at most once per `start` |
| Countdown.NoCallbackAfterStop | timer.py:52-60 | after `stop` or `reset`, tick events invoke no callback and change nothing |
| Countdown.RestartAfterStop | timer.py:35-56 | stopping and starting again gives a fresh countdown from the full duration |

## Left out

- gui.py: this is widget construction, key binding, the main loop and the one-second error display. It is interface plumbing and does not use `Score` or `Timer`.
- Reading the word file (`open` in data.py:12). The lines arrive as a parameter, and a failed open is the `None` case of `TypingLogic.LoadFromFile`.
- `print` in logic.py:11. It is a console side effect with no effect on state.
- `time.time()` and `random.choice`. The timestamp and the chosen index are arguments. The uniform distribution of the choice is not modelled; `TypingLogic.GetWordCoversList` states only that every word can be chosen.
- Tkinter scheduling. Job ids, `after_cancel` and the 1000 ms delay become the `tickPending` flag, and wall-clock time between ticks is not modelled. After the final tick the code keeps the spent job id in `timer_job`; the flag reads false there, because no tick is left to fire.
- Floating point. Elapsed minutes, WPM, CPM and accuracy are exact `real` values, and the 1e-6 floor is the exact real 0.000001. IEEE-754 rounding is not modelled.
- Callbacks that raise or call back into the timer. The model assumes the update and end callbacks return normally and do not call `start`, `stop` or `reset`. In the code `update_callback` runs before the next tick is scheduled (timer.py:44-46). An update callback that calls `stop()` would therefore leave the timer stopped with a fresh tick scheduled. One that raises would leave it running with no tick scheduled, so `start()` would do nothing until `stop()` or `reset()` is called. The whole `Countdown` model rests on this assumption. In particular `Countdown.ReachableInv`, `Countdown.IsRunningMeansTickScheduled`, `Countdown.EndsBoundedByStarts`, `Countdown.NoCallbackAfterStop`, `Countdown.DrainCountsDown`, `Countdown.StartRunsFullCountdown` and `Countdown.RestartAfterStop` hold only under it.
- Python's dynamic typing. The duration is an integer, and timestamps are reals.
