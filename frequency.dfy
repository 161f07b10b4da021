/** The words of the input (lower-cased non-separator runs) and the table
    from each word to its number of occurrences. */
module Frequency {
  import opened Ordering
  import opened Tokenizer

  /** toLowerCase, restricted to ASCII letters. */
  function Lower(c: char): char
  {
    if 'A' <= c <= 'Z' then (c as int + 32) as char else c
  }

  /** No character is an ASCII capital letter. */
  ghost predicate IsLowered(s: string)
  {
    forall i :: 0 <= i < |s| ==> !('A' <= s[i] <= 'Z')
  }

  /** Lower-casing removes every capital letter, leaves every other character
      where it was, and changes nothing in a string that is already lower-case. */
  function LowerLine(s: string): (r: string)
    ensures |r| == |s| && forall i :: 0 <= i < |s| ==> r[i] == Lower(s[i])
    ensures IsLowered(r)
    ensures forall i :: 0 <= i < |s| && !('A' <= s[i] <= 'Z') ==> r[i] == s[i]
    ensures IsLowered(s) ==> r == s
  {
    seq(|s|, i requires 0 <= i < |s| => Lower(s[i]))
  }

  /** The test both programs use on a run: its first character is not a separator. */
  predicate IsWordRun(seps: set<char>, r: string)
  {
    |r| > 0 && r[0] !in seps
  }

  /** A legal key of the frequency table: non-empty and separator-free. */
  ghost predicate IsWord(seps: set<char>, w: string)
  {
    |w| > 0 && forall k :: 0 <= k < |w| ==> w[k] !in seps
  }

  /** The word runs among runs, in order. */
  function WordsOf(seps: set<char>, runs: seq<string>): seq<string>
  {
    if runs == [] then []
    else
      var last := runs[|runs| - 1];
      WordsOf(seps, runs[..|runs| - 1]) + (if IsWordRun(seps, last) then [last] else [])
  }

  /** The words of one input line. */
  function LineWords(seps: set<char>, line: string): seq<string>
  {
    WordsOf(seps, RunsFrom(seps, LowerLine(line), 0))
  }

  /** The words of all input lines, in reading order. */
  function AllWords(seps: set<char>, lines: seq<string>): seq<string>
  {
    if lines == [] then []
    else AllWords(seps, lines[..|lines| - 1]) + LineWords(seps, lines[|lines| - 1])
  }

  /** The frequency table of a word sequence: each word with its number of
      occurrences. */
  function Occurrences(ws: seq<string>): map<string, int>
  {
    map w | w in ws :: multiset(ws)[w]
  }

  /** The table the counting loops build, one word at a time: a word that is
      a key has its count incremented, any other word is added with count 1. */
  function Tally(ws: seq<string>): map<string, int>
  {
    if ws == [] then map[]
    else
      var m := Tally(ws[..|ws| - 1]);
      var w := ws[|ws| - 1];
      m[w := if w in m then m[w] + 1 else 1]
  }

  /** The frequency table of the input. */
  function Table(seps: set<char>, lines: seq<string>): map<string, int>
  {
    Occurrences(AllWords(seps, lines))
  }

  /** The (word, count) pairs of a table: one pair per key. */
  function Pairs(m: map<string, int>): set<Entry>
  {
    set w | w in m :: Entry(w, m[w])
  }

  lemma WordsOfSnoc(seps: set<char>, runs: seq<string>, r: string)
    ensures WordsOf(seps, runs + [r]) ==
            WordsOf(seps, runs) + (if IsWordRun(seps, r) then [r] else [])
  {
    assert (runs + [r])[..|runs|] == runs;
  }

  lemma AllWordsSnoc(seps: set<char>, lines: seq<string>, k: nat)
    requires k < |lines|
    ensures AllWords(seps, lines[..k + 1]) == AllWords(seps, lines[..k]) + LineWords(seps, lines[k])
  {
    assert lines[..k + 1][..k] == lines[..k];
  }

  lemma OccurrencesSnoc(ws: seq<string>, w: string)
    ensures Occurrences(ws + [w]) ==
            Occurrences(ws)[w := if w in Occurrences(ws) then Occurrences(ws)[w] + 1 else 1]
  {
    var m := Occurrences(ws);
    var m' := Occurrences(ws + [w]);
    assert multiset(ws + [w]) == multiset(ws) + multiset{w};
    forall x | x in ws + [w] ensures x == w || x in ws { }
    assert m'.Keys == m.Keys + {w};
  }

  lemma TallySnoc(ws: seq<string>, w: string)
    ensures Tally(ws + [w]) == Tally(ws)[w := if w in Tally(ws) then Tally(ws)[w] + 1 else 1]
  {
    assert (ws + [w])[..|ws|] == ws;
  }

  /** Counting word by word yields each word's number of occurrences. */
  lemma {:induction false} TallyIsOccurrences(ws: seq<string>)
    ensures Tally(ws) == Occurrences(ws)
  {
    if ws != [] {
      var init := ws[..|ws| - 1];
      TallyIsOccurrences(init);
      assert ws == init + [ws[|ws| - 1]];
      OccurrencesSnoc(init, ws[|ws| - 1]);
    }
  }

  lemma {:induction false} WordsOfAreWordRuns(seps: set<char>, runs: seq<string>)
    ensures forall w :: w in WordsOf(seps, runs) ==> w in runs && IsWordRun(seps, w)
  {
    if runs != [] {
      WordsOfAreWordRuns(seps, runs[..|runs| - 1]);
    }
  }

  /** Each piece of a lower-case string is lower-case. */
  lemma {:induction false} ConcatLowered(rs: seq<string>)
    requires IsLowered(Concat(rs))
    ensures forall i :: 0 <= i < |rs| ==> IsLowered(rs[i])
  {
    if rs != [] {
      var head, tail := rs[0], Concat(rs[1..]);
      assert Concat(rs) == head + tail;
      forall k | 0 <= k < |tail| ensures !('A' <= tail[k] <= 'Z') {
        assert tail[k] == Concat(rs)[|head| + k];
      }
      ConcatLowered(rs[1..]);
      forall i | 0 <= i < |rs| ensures IsLowered(rs[i]) {
        if i == 0 {
          forall k | 0 <= k < |head| ensures !('A' <= head[k] <= 'Z') {
            assert head[k] == Concat(rs)[k];
          }
        } else {
          assert rs[i] == rs[1..][i - 1];
        }
      }
    }
  }

  lemma LineWordsAreWords(seps: set<char>, line: string)
    ensures forall w :: w in LineWords(seps, line) ==> IsWord(seps, w) && IsLowered(w)
  {
    var text := LowerLine(line);
    var runs := RunsFrom(seps, text, 0);
    RunsPartition(seps, text, 0);
    ConcatLowered(runs);
    WordsOfAreWordRuns(seps, runs);
    forall w | w in LineWords(seps, line) ensures IsWord(seps, w) && IsLowered(w) {
      var i :| 0 <= i < |runs| && runs[i] == w;
      assert Homogeneous(seps, runs[i]);
    }
  }

  lemma {:induction false} AllWordsAreWords(seps: set<char>, lines: seq<string>)
    ensures forall w :: w in AllWords(seps, lines) ==> IsWord(seps, w) && IsLowered(w)
  {
    if lines != [] {
      AllWordsAreWords(seps, lines[..|lines| - 1]);
      LineWordsAreWords(seps, lines[|lines| - 1]);
    }
  }

  /** The table invariant: every key is non-empty, separator-free and its own
      lower-case form, and every count is at least one. */
  lemma TableInvariant(seps: set<char>, lines: seq<string>)
    ensures forall w :: w in Table(seps, lines) ==> IsWord(seps, w) && Table(seps, lines)[w] >= 1
    ensures forall w :: w in Table(seps, lines) ==> LowerLine(w) == w
  {
    AllWordsAreWords(seps, lines);
  }

  /** A separator run is never a key of the table. */
  lemma SeparatorRunNeverKey(seps: set<char>, lines: seq<string>, r: string)
    requires |r| > 0 && r[0] in seps
    ensures r !in Table(seps, lines)
  {
    TableInvariant(seps, lines);
  }

  /** Removing one key removes exactly its pair. */
  lemma PairsRemove(m: map<string, int>, k: string)
    requires k in m
    ensures Pairs(m) == Pairs(m - {k}) + {Entry(k, m[k])}
    ensures Entry(k, m[k]) !in Pairs(m - {k})
    ensures multiset(Pairs(m)) == multiset(Pairs(m - {k})) + multiset{Entry(k, m[k])}
  {
    var e := Entry(k, m[k]);
    var rest := Pairs(m - {k});
    forall x | x in Pairs(m) ensures x in rest + {e} {
      var w :| w in m && x == Entry(w, m[w]);
      if w != k { assert w in m - {k}; }
    }
  }

  /** Moving the pair of one key from the table still to be drained to the
      pairs already taken keeps the two together equal to all the pairs. */
  lemma DrainStep(taken: seq<Entry>, rest: map<string, int>, all: multiset<Entry>, w: string)
    requires w in rest && multiset(taken) + multiset(Pairs(rest)) == all
    ensures multiset(taken + [Entry(w, rest[w])]) + multiset(Pairs(rest - {w})) == all
    ensures (rest - {w}).Keys < rest.Keys
  {
    PairsRemove(rest, w);
    assert multiset(taken + [Entry(w, rest[w])]) == multiset(taken) + multiset{Entry(w, rest[w])};
  }

  /** A table has as many pairs as keys. */
  lemma {:induction false} PairsCard(m: map<string, int>)
    ensures |Pairs(m)| == |m|
    decreases |m|
  {
    if |m| > 0 {
      var k :| k in m;
      PairsRemove(m, k);
      assert (m - {k}).Keys == m.Keys - {k};
      PairsCard(m - {k});
    }
  }

  /** A sequence drawn from a table's pairs lists no word twice. */
  lemma DistinctWords(s: seq<Entry>, m: map<string, int>)
    requires multiset(s) <= multiset(Pairs(m))
    ensures forall i, j :: 0 <= i < j < |s| ==> s[i].word != s[j].word
  {
    forall i, j | 0 <= i < j < |s| ensures s[i].word != s[j].word {
      assert s[i] in multiset(Pairs(m)) && s[j] in multiset(Pairs(m));
      TwoOccurrences(s, i, j);
    }
  }

  lemma TwoOccurrences(s: seq<Entry>, i: int, j: int)
    requires 0 <= i < j < |s|
    ensures s[i] == s[j] ==> multiset(s)[s[j]] >= 2
  {
    assert s == s[..j] + s[j..];
    assert s[i] in s[..j];
    assert s[j..][0] == s[j];
  }

  /** Every key of m is a word. */
  ghost predicate KeysAreWords(seps: set<char>, m: map<string, int>)
  {
    forall w :: w in m ==> IsWord(seps, w)
  }

  /** Appending a run to the runs seen so far appends it to the words exactly
      when it is a word run. */
  lemma SnocRun(seps: set<char>, counted: seq<string>, done: seq<string>, r: string)
    ensures counted + WordsOf(seps, done + [r]) ==
            if IsWordRun(seps, r) then (counted + WordsOf(seps, done)) + [r]
            else counted + WordsOf(seps, done)
  {
    WordsOfSnoc(seps, done, r);
  }

  /** The counting loop both programs run over the lines of the input: each
      line is lower-cased and split into runs; a run that is a key has its
      count incremented, and a run that is not a key but starts with a
      non-separator is added with count 1. */
  method CountWords(lines: seq<string>, separators: set<char>) returns (words: map<string, int>)
    ensures words == Table(separators, lines)
  {
    words := map[];
    var li := 0;
    while li < |lines|
      invariant 0 <= li <= |lines|
      invariant words == Tally(AllWords(separators, lines[..li]))
      invariant KeysAreWords(separators, words)
    {
      words := CountLine(LowerLine(lines[li]), separators, words, AllWords(separators, lines[..li]));
      AllWordsSnoc(separators, lines, li);
      li := li + 1;
    }
    assert lines[..li] == lines;
    TallyIsOccurrences(AllWords(separators, lines));
  }

  /** The inner loop of the counting: the runs of one lower-cased line. */
  method CountLine(line: string, separators: set<char>, words0: map<string, int>,
                   ghost counted: seq<string>)
    returns (words: map<string, int>)
    requires words0 == Tally(counted) && KeysAreWords(separators, words0)
    ensures words == Tally(counted + WordsOf(separators, RunsFrom(separators, line, 0)))
    ensures KeysAreWords(separators, words)
  {
    words := words0;
    var position := 0;
    ghost var done: seq<string> := [];
    ghost var todo := RunsFrom(separators, line, 0);
    ghost var ws := counted;
    assert counted + WordsOf(separators, done) == counted;
    while position < |line|
      invariant 0 <= position <= |line|
      invariant todo == RunsFrom(separators, line, position)
      invariant RunsFrom(separators, line, 0) == done + todo
      invariant ws == counted + WordsOf(separators, done)
      invariant words == Tally(ws)
      invariant KeysAreWords(separators, words)
      decreases |line| - position
    {
      var word := NextWordOrSeparator(line, position, separators);
      var next := position + |word|;
      ghost var todo' := LineStep(separators, line, position, word, next, done, todo);
      SnocRun(separators, counted, done, word);
      words, ws := CountRun(word, separators, words, ws);
      done := done + [word];
      todo := todo';
      position := next;
    }
    assert done + todo == done;
  }

  /** Counting one run: a run that is a key has its count incremented, a run
      that starts with a non-separator is added with count 1, and a separator
      run changes nothing. The table stays the tally of the words seen, the
      run being appended to them exactly when it is a word. */
  method CountRun(word: string, separators: set<char>, words0: map<string, int>,
                  ghost ws0: seq<string>)
    returns (words: map<string, int>, ghost ws: seq<string>)
    requires |word| > 0 && Homogeneous(separators, word)
    requires words0 == Tally(ws0) && KeysAreWords(separators, words0)
    ensures ws == if IsWordRun(separators, word) then ws0 + [word] else ws0
    ensures words == Tally(ws) && KeysAreWords(separators, words)
  {
    TallySnoc(ws0, word);
    words := words0;
    ws := ws0;
    if word in words {
      assert IsWord(separators, word);
      words := words[word := words[word] + 1];
    } else if word[0] !in separators {
      words := words[word := 1];
    }
    if IsWordRun(separators, word) {
      ws := ws0 + [word];
    }
  }

  /** The tokenizer's next run is the next of the line's runs. */
  lemma LineStep(seps: set<char>, line: string, position: nat, word: string, next: nat,
                 done: seq<string>, todo: seq<string>) returns (todo': seq<string>)
    requires IsRunAt(seps, line, position, word) && next == position + |word|
    requires todo == RunsFrom(seps, line, position) && RunsFrom(seps, line, 0) == done + todo
    ensures next <= |line| && |word| > 0 && Homogeneous(seps, word)
    ensures todo' == RunsFrom(seps, line, next)
    ensures RunsFrom(seps, line, 0) == (done + [word]) + todo'
  {
    RunsFromStep(seps, line, position, word);
    todo' := todo[1..];
    assert todo == [word] + todo';
    assert done + ([word] + todo') == (done + [word]) + todo';
  }
}
