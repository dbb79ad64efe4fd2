/**
 * The pure part of `get_word_list` (data.py): every line read from the
 * word file is stripped of surrounding whitespace, and the lines that are
 * empty after stripping are dropped. Opening and reading the file is not
 * modelled; the lines arrive as a parameter, each with its line terminator, if any.
 */
module WordData {

  /** The characters Python's `str.isspace()` accepts, which is the set
      `str.strip()` removes when called without an argument. The line
      terminators a line may be read with belong to it; letters and digits,
      the content of a word list, never do. */
  predicate IsSpace(c: char)
    ensures c == '\n' || c == '\r' ==> IsSpace(c)
    ensures ('a' <= c && c <= 'z') || ('A' <= c && c <= 'Z') || ('0' <= c && c <= '9') ==> !IsSpace(c)
  {
    || ('\t' <= c && c <= '\r')
    || ('\U{1C}' <= c && c <= '\U{1F}')
    || c == ' '
    || c == '\U{85}'
    || c == '\U{A0}'
    || c == '\U{1680}'
    || ('\U{2000}' <= c && c <= '\U{200A}')
    || c == '\U{2028}'
    || c == '\U{2029}'
    || c == '\U{202F}'
    || c == '\U{205F}'
    || c == '\U{3000}'
  }

  /** Every character of `s` is whitespace (vacuously true of ""). */
  predicate AllSpace(s: string) {
    forall i :: 0 <= i < |s| ==> IsSpace(s[i])
  }

  /** `s` has no whitespace at either end. */
  predicate Trimmed(s: string) {
    s == [] || (!IsSpace(s[0]) && !IsSpace(s[|s| - 1]))
  }

  /** Whitespace on both sides of a concatenation is whitespace on both. */
  lemma AllSpaceConcat(a: string, b: string)
    ensures AllSpace(a + b) <==> AllSpace(a) && AllSpace(b)
  {
    assert forall k :: 0 <= k < |a| ==> (a + b)[k] == a[k];
    assert forall k :: 0 <= k < |b| ==> (a + b)[|a| + k] == b[k];
  }

  /** Python's `line.strip()`: whitespace is cut off the front, then off the
      back, until neither end is whitespace. */
  function Strip(s: string): (r: string)
    ensures |r| <= |s|
    ensures Trimmed(r)
    decreases |s|
  {
    if |s| > 0 && IsSpace(s[0]) then Strip(s[1..])
    else if |s| > 0 && IsSpace(s[|s| - 1]) then Strip(s[..|s| - 1])
    else s
  }

  /** The strip is empty exactly when the line is all whitespace. */
  lemma {:induction false} StripEmptyIff(s: string)
    ensures Strip(s) == [] <==> AllSpace(s)
    decreases |s|
  {
    if |s| > 0 && IsSpace(s[0]) {
      StripEmptyIff(s[1..]);
      assert s == [s[0]] + s[1..];
      AllSpaceConcat([s[0]], s[1..]);
    } else if |s| > 0 && IsSpace(s[|s| - 1]) {
      StripEmptyIff(s[..|s| - 1]);
      assert s == s[..|s| - 1] + [s[|s| - 1]];
      AllSpaceConcat(s[..|s| - 1], [s[|s| - 1]]);
    }
  }

  /** `r` sits in `s` at offset `i` with only whitespace around it. */
  ghost predicate InfixAt(s: string, r: string, i: nat) {
    && i + |r| <= |s|
    && r == s[i..i + |r|]
    && AllSpace(s[..i])
    && AllSpace(s[i + |r|..])
  }

  /** A leading whitespace character widens the left margin by one. */
  lemma InfixAtConsSpace(s: string, r: string, i: nat)
    requires |s| > 0 && IsSpace(s[0]) && InfixAt(s[1..], r, i)
    ensures InfixAt(s, r, i + 1)
  {
    var t := s[1..];
    assert r == s[i + 1..i + 1 + |r|];
    assert s[..i + 1] == [s[0]] + t[..i];
    AllSpaceConcat([s[0]], t[..i]);
    assert s[i + 1 + |r|..] == t[i + |r|..];
  }

  /** A trailing whitespace character widens the right margin by one. */
  lemma InfixAtSnocSpace(s: string, r: string, i: nat)
    requires |s| > 0 && IsSpace(s[|s| - 1]) && InfixAt(s[..|s| - 1], r, i)
    ensures InfixAt(s, r, i)
  {
    var t := s[..|s| - 1];
    assert r == s[i..i + |r|];
    assert s[..i] == t[..i];
    assert s[i + |r|..] == t[i + |r|..] + [s[|s| - 1]];
    AllSpaceConcat(t[i + |r|..], [s[|s| - 1]]);
  }

  /** The strip is the infix of `s` left after removing a run of whitespace
      from each end. */
  lemma {:induction false} StripIsInfix(s: string)
    ensures exists i: nat :: InfixAt(s, Strip(s), i)
    decreases |s|
  {
    var r := Strip(s);
    if |s| > 0 && IsSpace(s[0]) {
      StripIsInfix(s[1..]);
      var i: nat :| InfixAt(s[1..], r, i);
      InfixAtConsSpace(s, r, i);
    } else if |s| > 0 && IsSpace(s[|s| - 1]) {
      StripIsInfix(s[..|s| - 1]);
      var i: nat :| InfixAt(s[..|s| - 1], r, i);
      InfixAtSnocSpace(s, r, i);
    } else {
      assert s[..0] == [] && s[|s|..] == [];
      assert InfixAt(s, r, 0);
    }
  }

  /** A string without surrounding whitespace is its own strip. */
  lemma StripOfTrimmed(s: string)
    requires Trimmed(s)
    ensures Strip(s) == s
  {
  }

  /** Stripping twice is stripping once. */
  lemma StripIdempotent(s: string)
    ensures Strip(Strip(s)) == Strip(s)
  {
    StripOfTrimmed(Strip(s));
  }

  /** What one line contributes: its strip, unless that is empty. */
  function Keep(line: string): (ws: seq<string>)
    ensures |ws| <= 1
    ensures ws == [] <==> AllSpace(line)
    ensures forall k :: 0 <= k < |ws| ==> ws[k] == Strip(line) && ws[k] != ""
  {
    StripEmptyIff(line);
    if Strip(line) != "" then [Strip(line)] else []
  }

  /** The lines `get_word_list` keeps, stripped, in file order (data.py:13). */
  function CleanLines(lines: seq<string>): (words: seq<string>)
    ensures |words| <= |lines|
    ensures forall k :: 0 <= k < |words| ==> words[k] != "" && Trimmed(words[k])
  {
    if lines == [] then []
    else
      var head := Keep(lines[0]);
      var rest := CleanLines(lines[1..]);
      assert forall k :: 0 <= k < |rest| ==> (head + rest)[|head| + k] == rest[k];
      head + rest
  }

  /** Every cleaned word equals its own strip. */
  lemma CleanWordsAreStripped(lines: seq<string>)
    ensures forall k :: 0 <= k < |CleanLines(lines)| ==> Strip(CleanLines(lines)[k]) == CleanLines(lines)[k]
  {
    var words := CleanLines(lines);
    forall k | 0 <= k < |words| ensures Strip(words[k]) == words[k] {
      StripOfTrimmed(words[k]);
    }
  }

  /** What one line contributes: nothing if it is blank, else its strip. */
  lemma {:induction false} CleanLinesSingle(line: string)
    ensures CleanLines([line]) == if AllSpace(line) then [] else [Strip(line)]
  {
    assert [line][1..] == [];
    assert CleanLines([line]) == Keep(line) + [];
  }

  /** Cleaning distributes over concatenation: each line is handled on its own
      and the survivors keep their relative order. */
  lemma {:induction false} CleanLinesAppend(a: seq<string>, b: seq<string>)
    ensures CleanLines(a + b) == CleanLines(a) + CleanLines(b)
    decreases |a|
  {
    if a == [] {
      assert a + b == b;
    } else {
      var h := Keep(a[0]);
      assert (a + b)[0] == a[0];
      assert (a + b)[1..] == a[1..] + b;
      CleanLinesAppend(a[1..], b);
      calc {
        CleanLines(a + b);
        h + CleanLines(a[1..] + b);
        h + (CleanLines(a[1..]) + CleanLines(b));
        (h + CleanLines(a[1..])) + CleanLines(b);
        CleanLines(a) + CleanLines(b);
      }
    }
  }

  /** Indices of the lines that are not blank, in increasing order: an
      independent description of which lines survive the filter. */
  function Survivors(lines: seq<string>): (idx: seq<nat>)
    ensures forall k :: 0 <= k < |idx| ==> idx[k] < |lines|
    ensures forall k, m :: 0 <= k < m < |idx| ==> idx[k] < idx[m]
    ensures forall j :: 0 <= j < |lines| ==> (j in idx <==> !AllSpace(lines[j]))
  {
    if lines == [] then []
    else
      var init := lines[..|lines| - 1];
      var prev := Survivors(init);
      assert forall j :: 0 <= j < |init| ==> init[j] == lines[j];
      prev + (if AllSpace(lines[|lines| - 1]) then [] else [|lines| - 1])
  }

  /** Appending one line appends what that line contributes. */
  lemma CleanLinesSnoc(lines: seq<string>, line: string)
    ensures CleanLines(lines + [line]) == CleanLines(lines) + Keep(line)
  {
    CleanLinesAppend(lines, [line]);
    assert [line][1..] == [];
    assert CleanLines([line]) == Keep(line) + [];
  }

  /** The cleaned list is exactly the strips of the surviving lines, in the
      order the lines appear: nothing is reordered, duplicated or invented. */
  lemma {:induction false} CleanLinesSelects(lines: seq<string>)
    ensures |CleanLines(lines)| == |Survivors(lines)|
    ensures forall k :: 0 <= k < |Survivors(lines)| ==>
              CleanLines(lines)[k] == Strip(lines[Survivors(lines)[k]])
    decreases |lines|
  {
    if lines != [] {
      var n := |lines| - 1;
      var init := lines[..n];
      assert lines == init + [lines[n]];
      CleanLinesSnoc(init, lines[n]);
      CleanLinesSelects(init);
      var words, idx := CleanLines(lines), Survivors(lines);
      var words0, idx0 := CleanLines(init), Survivors(init);
      assert words == words0 + Keep(lines[n]);
      assert idx == idx0 + (if AllSpace(lines[n]) then [] else [n]);
      forall k | 0 <= k < |idx| ensures words[k] == Strip(lines[idx[k]]) {
        if k < |idx0| {
          assert words[k] == words0[k];
          assert idx[k] == idx0[k];
          assert init[idx0[k]] == lines[idx0[k]];
        } else {
          assert idx[k] == n;
        }
      }
    }
  }

  /** Some line of `lines` strips to the non-empty word `w`. */
  ghost predicate SomeLineStripsTo(lines: seq<string>, w: string) {
    w != "" && exists j :: 0 <= j < |lines| && Strip(lines[j]) == w
  }

  /** A word is in the cleaned list exactly when some line strips to it and
      that strip is not empty. */
  lemma {:induction false} CleanLinesMembership(lines: seq<string>, w: string)
    ensures w in CleanLines(lines) <==> SomeLineStripsTo(lines, w)
    decreases |lines|
  {
    if lines != [] {
      var tail := lines[1..];
      CleanLinesMembership(tail, w);
      var head := Keep(lines[0]);
      assert CleanLines(lines) == head + CleanLines(tail);
      assert SomeLineStripsTo(tail, w) ==> SomeLineStripsTo(lines, w) by {
        if SomeLineStripsTo(tail, w) {
          var j :| 0 <= j < |tail| && Strip(tail[j]) == w;
          assert lines[j + 1] == tail[j];
        }
      }
      assert SomeLineStripsTo(lines, w) ==> w in head || SomeLineStripsTo(tail, w) by {
        if SomeLineStripsTo(lines, w) {
          var j :| 0 <= j < |lines| && Strip(lines[j]) == w;
          assert j > 0 ==> tail[j - 1] == lines[j];
        }
      }
    }
  }

  /** A line made only of whitespace contributes nothing, wherever it sits. */
  lemma BlankLineDropped(before: seq<string>, line: string, after: seq<string>)
    requires AllSpace(line)
    ensures CleanLines(before + [line] + after) == CleanLines(before + after)
  {
    CleanLinesAppend(before + [line], after);
    CleanLinesAppend(before, [line]);
    CleanLinesSingle(line);
    CleanLinesAppend(before, after);
  }

  /** One more line of the file read: the prefix's cleaning grows by what
      that line contributes. */
  lemma CleanLinesPrefixStep(lines: seq<string>, i: nat)
    requires i < |lines|
    ensures CleanLines(lines[..i + 1]) == CleanLines(lines[..i]) + Keep(lines[i])
  {
    assert lines[..i + 1] == lines[..i] + [lines[i]];
    CleanLinesSnoc(lines[..i], lines[i]);
  }

  /** The list comprehension of `get_word_list`, written as the loop Python
      runs over the file's lines. */
  method GetWordList(lines: seq<string>) returns (words: seq<string>)
    ensures words == CleanLines(lines)
  {
    words := [];
    var i := 0;
    while i < |lines|
      invariant 0 <= i <= |lines|
      invariant words == CleanLines(lines[..i])
    {
      CleanLinesPrefixStep(lines, i);
      var w := Strip(lines[i]);
      if w != "" {
        words := words + [w];
      }
      i := i + 1;
    }
    assert lines[..i] == lines;
  }
}
