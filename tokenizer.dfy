/** Splitting a line into maximal runs of separator or of word characters
    (nextWordOrSeparator), and building the separator set. */
module Tokenizer {

  /** The tokenizer's contract: r is the longest run starting at pos whose
      characters are all separators or all non-separators, whichever
      text[pos] is. */
  ghost predicate IsRunAt(seps: set<char>, text: string, pos: int, r: string)
  {
    0 <= pos < |text| && 0 < |r| && pos + |r| <= |text| &&
    r == text[pos..pos + |r|] &&
    (forall k :: 0 <= k < |r| ==> (r[k] in seps) == (text[pos] in seps)) &&
    (pos + |r| == |text| || (text[pos + |r|] in seps) != (text[pos] in seps))
  }

  /** All characters of r are of one class. */
  ghost predicate Homogeneous(seps: set<char>, r: string)
  {
    forall k :: 0 <= k < |r| ==> (r[k] in seps) == (r[0] in seps)
  }

  /** The end of the run of class cls that contains position i. */
  function RunEnd(seps: set<char>, text: string, cls: bool, i: nat): (j: nat)
    requires i <= |text|
    ensures i <= j <= |text|
    decreases |text| - i
  {
    if i < |text| && (text[i] in seps) == cls then RunEnd(seps, text, cls, i + 1) else i
  }

  /** Scanning from i stops at the first character of the other class. */
  lemma {:induction false} RunEndStops(seps: set<char>, text: string, cls: bool, i: nat)
    requires i <= |text|
    ensures forall k :: i <= k < RunEnd(seps, text, cls, i) ==> (text[k] in seps) == cls
    ensures RunEnd(seps, text, cls, i) == |text| || (text[RunEnd(seps, text, cls, i)] in seps) != cls
    decreases |text| - i
  {
    if i < |text| && (text[i] in seps) == cls {
      RunEndStops(seps, text, cls, i + 1);
    }
  }

  /** The run the tokenizer returns at pos. */
  function Run(seps: set<char>, text: string, pos: nat): string
    requires pos < |text|
  {
    text[pos..RunEnd(seps, text, text[pos] in seps, pos)]
  }

  lemma RunIsRunAt(seps: set<char>, text: string, pos: nat)
    requires pos < |text|
    ensures IsRunAt(seps, text, pos, Run(seps, text, pos))
  {
    RunEndStops(seps, text, text[pos] in seps, pos);
    RunEndStops(seps, text, text[pos] in seps, pos + 1);
  }

  /** The runs met by tokenizing from pos and advancing by each run's length. */
  function RunsFrom(seps: set<char>, text: string, pos: nat): seq<string>
    requires pos <= |text|
    decreases |text| - pos
  {
    if pos == |text| then []
    else
      var r := Run(seps, text, pos);
      [r] + RunsFrom(seps, text, pos + |r|)
  }

  /** Tokenizing from pos yields the run at pos, then the runs after it. */
  lemma RunsFromStep(seps: set<char>, text: string, pos: nat, r: string)
    requires pos < |text| && IsRunAt(seps, text, pos, r)
    ensures pos + |r| <= |text| && |r| > 0 && Homogeneous(seps, r)
    ensures RunsFrom(seps, text, pos) == [r] + RunsFrom(seps, text, pos + |r|)
    ensures |RunsFrom(seps, text, pos)| > 0 && RunsFrom(seps, text, pos)[0] == r
    ensures RunsFrom(seps, text, pos)[1..] == RunsFrom(seps, text, pos + |r|)
  {
    var r' := Run(seps, text, pos);
    RunIsRunAt(seps, text, pos);
    RunUnique(seps, text, pos, r, r');
    var rs := RunsFrom(seps, text, pos + |r'|);
    assert RunsFrom(seps, text, pos) == [r'] + rs;
    assert ([r'] + rs)[1..] == rs;
  }

  function Concat(rs: seq<string>): string
  {
    if rs == [] then [] else rs[0] + Concat(rs[1..])
  }

  /** At most one string meets the tokenizer's contract. */
  lemma RunUnique(seps: set<char>, text: string, pos: int, r1: string, r2: string)
    requires IsRunAt(seps, text, pos, r1) && IsRunAt(seps, text, pos, r2)
    ensures r1 == r2
  {
    RunEndsRun(seps, text, pos, r1, pos);
    RunEndsRun(seps, text, pos, r2, pos);
  }

  /** Helper of RunUnique: scanning from inside a run stops at its end. */
  lemma {:induction false} RunEndsRun(seps: set<char>, text: string, pos: int, r: string, i: nat)
    requires IsRunAt(seps, text, pos, r) && pos <= i <= pos + |r|
    ensures RunEnd(seps, text, text[pos] in seps, i) == pos + |r|
    decreases pos + |r| - i
  {
    if i < pos + |r| {
      assert text[i] == r[i - pos];
      RunEndsRun(seps, text, pos, r, i + 1);
    }
  }

  /** Tokenizing from pos to the end partitions text[pos..] into non-empty
      homogeneous runs whose classes alternate. */
  lemma {:induction false} RunsPartition(seps: set<char>, text: string, pos: nat)
    requires pos <= |text|
    ensures Concat(RunsFrom(seps, text, pos)) == text[pos..]
    ensures forall i :: 0 <= i < |RunsFrom(seps, text, pos)| ==>
      |RunsFrom(seps, text, pos)[i]| > 0 && Homogeneous(seps, RunsFrom(seps, text, pos)[i])
    ensures forall i :: 0 <= i < |RunsFrom(seps, text, pos)| - 1 ==>
      (RunsFrom(seps, text, pos)[i][0] in seps) != (RunsFrom(seps, text, pos)[i + 1][0] in seps)
    decreases |text| - pos
  {
    if pos < |text| {
      var r := Run(seps, text, pos);
      RunIsRunAt(seps, text, pos);
      var next := pos + |r|;
      RunsPartition(seps, text, next);
      var rest := RunsFrom(seps, text, next);
      var rs := RunsFrom(seps, text, pos);
      assert rs == [r] + rest;
      assert rs[1..] == rest;
      assert text[pos..] == r + text[next..];
      forall i | 0 <= i < |rs| - 1
        ensures (rs[i][0] in seps) != (rs[i + 1][0] in seps)
      {
        if i == 0 {
          RunIsRunAt(seps, text, next);
          assert rs[1] == Run(seps, text, next);
          assert rs[1][0] == text[next];
        } else {
          assert rs[i] == rest[i - 1] && rs[i + 1] == rest[i];
        }
      }
      forall i | 0 <= i < |rs| ensures |rs[i]| > 0 && Homogeneous(seps, rs[i]) {
        if i > 0 { assert rs[i] == rest[i - 1]; }
      }
    }
  }

  /** nextWordOrSeparator: returns the maximal run starting at position. */
  method NextWordOrSeparator(text: string, position: int, separators: set<char>)
    returns (str: string)
    requires 0 <= position < |text|
    ensures IsRunAt(separators, text, position, str)
  {
    str := "";
    var i := position;
    if text[position] in separators {
      while i < |text| && text[i] in separators
        invariant position <= i <= |text|
        invariant str == text[position..i]
        invariant forall k :: position <= k < i ==> text[k] in separators
      {
        str := str + [text[i]];
        i := i + 1;
      }
    } else {
      while i < |text| && text[i] !in separators
        invariant position <= i <= |text|
        invariant str == text[position..i]
        invariant forall k :: position <= k < i ==> text[k] !in separators
      {
        str := str + [text[i]];
        i := i + 1;
      }
    }
  }

  /** The loop that adds each character of the separator string to a set. */
  method BuildSeparators(separatorsStr: string) returns (separators: set<char>)
    ensures forall c :: c in separators <==> c in separatorsStr
  {
    separators := {};
    var j := 0;
    while j < |separatorsStr|
      invariant 0 <= j <= |separatorsStr|
      invariant forall c :: c in separators <==> c in separatorsStr[..j]
    {
      assert separatorsStr[..j + 1] == separatorsStr[..j] + [separatorsStr[j]];
      separators := separators + {separatorsStr[j]};
      j := j + 1;
    }
    assert separatorsStr[..j] == separatorsStr;
  }
}
