/** TagCloudGenerator: the variant built on the OSU Map1L and SortingMachine
    components. */
module TagCloudGenerator {
  import opened Ordering
  import opened Tokenizer
  import opened Frequency
  import opened FontSize
  import opened TagCloud
  import opened Collections

  /** The separator characters of this variant; unlike the other variant they
      leave out the apostrophe and the backtick. */
  const SeparatorsStr: string := "/\t\n\r.,&!? []{}|-=+@#$%*\"()"

  const Separators: set<char> := set c | c in SeparatorsStr

  lemma SeparatorsBuilt(s: set<char>)
    requires forall c :: c in s <==> c in SeparatorsStr
    ensures s == Separators
  {
  }

  /** addToIntMachine: counts the words of the lines in a Map1L, then moves
      its pairs into s with removeAny, in no particular order. */
  method AddToIntMachine(lines: seq<string>, s: SortingMachine)
    requires s.insertionMode
    modifies s
    ensures s.insertionMode
    ensures s.contents == old(s.contents) + multiset(Pairs(Table(Separators, lines)))
  {
    var separators := BuildSeparators(SeparatorsStr);
    SeparatorsBuilt(separators);
    var words := CountWords(lines, separators);
    AddPairs(words, s);
  }

  /** The last loop of addToIntMachine: while the map is not empty, removeAny
      takes out some pair and s.add receives it. */
  method AddPairs(words0: map<string, int>, s: SortingMachine)
    requires s.insertionMode
    modifies s
    ensures s.insertionMode
    ensures s.contents == old(s.contents) + multiset(Pairs(words0))
  {
    var words := words0;
    ghost var added: seq<Entry> := [];
    while |words| > 0
      invariant s.insertionMode
      invariant s.contents == old(s.contents) + multiset(added)
      invariant multiset(added) + multiset(Pairs(words)) == multiset(Pairs(words0))
      decreases words.Keys
    {
      var w :| w in words;
      var p := Entry(w, words[w]);
      DrainStep(added, words, multiset(Pairs(words0)), w);
      words := words - {w};
      s.Add(p);
      added := added + [p];
    }
    assert words == map[];
  }

  /** addToStringMachineReturnMax as written: removes the first pair of sInts
      as the maximum, then n times adds the current pair to sStrs and removes
      the next one. The last removal needs an (n+1)-th pair; removeFirst on
      an empty machine violates its precondition. drawn lists the pairs
      removed from sInts, in order. */
  method AddToStringMachineReturnMax(n: int, sInts: SortingMachine, sStrs: SortingMachine)
    returns (r: Selection, ghost drawn: seq<Entry>)
    requires sInts != sStrs && sInts.order == IntOrder
    requires |sInts.contents| > 0 && !sInts.insertionMode
    requires |sStrs.contents| == 0 && sStrs.insertionMode
    modifies sInts, sStrs
    ensures !sInts.insertionMode && sStrs.insertionMode
    ensures IsExtractionOrder(IntOrder, drawn, old(sInts.contents))
    ensures sInts.contents == old(sInts.contents) - multiset(drawn)
    ensures r.Selected? <==> |old(sInts.contents)| > n
    ensures match r
      case Selected(max) =>
        |drawn| == Clamp(n) + 1 && max == drawn[0].count &&
        sStrs.contents == multiset(drawn[..Clamp(n)])
      case RemovedFromEmpty =>
        |drawn| == |old(sInts.contents)| && sStrs.contents == multiset(drawn)
  {
    ghost var m0 := sInts.contents;
    var p := sInts.RemoveFirst();
    drawn := ExtractStep(IntOrder, [], m0, m0, p, sInts.contents);
    var max := p.count;
    ghost var moved: seq<Entry> := [];
    var i := 0;
    while i < n
      invariant 0 <= i <= Clamp(n) && |moved| == i && drawn == moved + [p]
      invariant !sInts.insertionMode && sStrs.insertionMode
      invariant max == drawn[0].count
      invariant IsExtractionOrder(IntOrder, drawn, m0)
      invariant sInts.contents == m0 - multiset(drawn) && |sInts.contents| == |m0| - |drawn|
      invariant sStrs.contents == multiset(moved)
    {
      sStrs.Add(p);
      moved := moved + [p];
      if sInts.Size() == 0 {
        assert |drawn| == |m0|;
        r := RemovedFromEmpty;
        return;
      }
      ghost var before := sInts.contents;
      p := sInts.RemoveFirst();
      drawn := ExtractStep(IntOrder, drawn, m0, before, p, sInts.contents);
      i := i + 1;
    }
    assert i == Clamp(n) && drawn[..i] == moved;
    r := Selected(max);
  }

  /** When the selection as written succeeds (it drew n + 1 pairs), the
      pairs it moved into sStrs are drawn as the corrected selection draws
      them: the first n of an extraction order, min(n, |table|) of them, a
      top-n selection of the table headed by its largest count. */
  lemma AsWrittenAgrees(table: map<string, int>, n: int, drawn: seq<Entry>)
    requires n > 0 && |drawn| == Clamp(n) + 1
    requires IsExtractionOrder(IntOrder, drawn, multiset(Pairs(table)))
    ensures IsExtractionOrder(IntOrder, drawn[..Clamp(n)], multiset(Pairs(table)))
    ensures |drawn[..Clamp(n)]| == Min(n, |multiset(Pairs(table))|)
    ensures IsMaxCount(table, drawn[0].count)
    ensures IsSelection(table, n, multiset(drawn[..Clamp(n)]),
                        multiset(Pairs(table)) - multiset(drawn[..Clamp(n)]))
  {
    var all := multiset(Pairs(table));
    ExtractionContained(IntOrder, drawn, all);
    assert all == multiset(drawn) + (all - multiset(drawn));
    ExtractionPrefix(IntOrder, drawn, all, n);
    assert drawn[..n][0] == drawn[0];
    TopOfExtraction(table, n, drawn[..n]);
  }

  /** With one distinct word and n = 1 the selection as written calls
      removeFirst on an empty machine. */
  method OneWordSelectionFails() returns (r: Selection)
    ensures r == RemovedFromEmpty
  {
    var sInts := new SortingMachine(IntOrder);
    sInts.Add(Entry("cat", 1));
    sInts.ChangeToExtractionMode();
    var sStrs := new SortingMachine(StrOrder);
    ghost var drawn: seq<Entry>;
    r, drawn := AddToStringMachineReturnMax(1, sInts, sStrs);
  }

  /** The selection with the look-ahead removal dropped: moves the first
      min(n, |sInts|) pairs of sInts, in IntOrder, to sStrs; the count of the
      first is the maximum. */
  method SelectTop(n: int, sInts: SortingMachine, sStrs: SortingMachine)
    returns (max: int, ghost drawn: seq<Entry>)
    requires sInts != sStrs && sInts.order == IntOrder
    requires |sInts.contents| > 0 && !sInts.insertionMode
    requires |sStrs.contents| == 0 && sStrs.insertionMode
    requires n > 0
    modifies sInts, sStrs
    ensures !sInts.insertionMode && sStrs.insertionMode
    ensures IsExtractionOrder(IntOrder, drawn, old(sInts.contents))
    ensures |drawn| == Min(n, |old(sInts.contents)|) && max == drawn[0].count
    ensures sStrs.contents == multiset(drawn)
    ensures sInts.contents == old(sInts.contents) - multiset(drawn)
  {
    ghost var m0 := sInts.contents;
    var p := sInts.RemoveFirst();
    drawn := ExtractStep(IntOrder, [], m0, m0, p, sInts.contents);
    max := p.count;
    sStrs.Add(p);
    var i := 1;
    while i < n && sInts.Size() > 0
      invariant 1 <= i <= Min(n, |m0|) && |drawn| == i && max == drawn[0].count
      invariant !sInts.insertionMode && sStrs.insertionMode
      invariant IsExtractionOrder(IntOrder, drawn, m0)
      invariant sInts.contents == m0 - multiset(drawn) && |sInts.contents| == |m0| - |drawn|
      invariant sStrs.contents == multiset(drawn)
    {
      ghost var before := sInts.contents;
      p := sInts.RemoveFirst();
      drawn := ExtractStep(IntOrder, drawn, m0, before, p, sInts.contents);
      sStrs.Add(p);
      i := i + 1;
    }
  }

  /** printAll, from the counted lines to the printTags calls: the n most
      frequent words (all of them when there are fewer), in ascending word
      order, each sized against the largest count of all words. */
  method PrintAll(n: int, lines: seq<string>) returns (tags: seq<Tag>, maxword: int)
    requires n > 0
    ensures IsMaxCount(Table(Separators, lines), maxword)
    ensures IsTagCloud(Table(Separators, lines), n, maxword, tags)
  {
    var sortedStrs: SortingMachine;
    ghost var sel: multiset<Entry>, rest: multiset<Entry>;
    sortedStrs, maxword, sel, rest := SelectWords(n, lines);
    ghost var alpha: seq<Entry>;
    tags, alpha := EmitTags(n, sortedStrs, maxword);
    assert |sel| <= n;
    assert |alpha| == |sel|;
    ExtractionContained(StrOrder, alpha, sel);
    SubMultisetFull(multiset(alpha), sel);
    ExtractionSorted(StrOrder, alpha, sel);
    CloudFromSelection(Table(Separators, lines), n, maxword, sel, rest, alpha, tags);
  }

  /** The first half of printAll: the pairs counted by addToIntMachine and,
      when there are any, the ones addToStringMachineReturnMax moves to
      sortedStrs (here with the look-ahead removal dropped), with the largest
      count. */
  method SelectWords(n: int, lines: seq<string>)
    returns (sortedStrs: SortingMachine, maxword: int,
             ghost sel: multiset<Entry>, ghost rest: multiset<Entry>)
    requires n > 0
    ensures fresh(sortedStrs) && sortedStrs.order == StrOrder && sortedStrs.insertionMode
    ensures IsMaxCount(Table(Separators, lines), maxword)
    ensures IsSelection(Table(Separators, lines), n, sel, rest) && sortedStrs.contents == sel
    ensures forall e :: e in sortedStrs.contents ==> 0 < e.count <= maxword
  {
    ghost var table := Table(Separators, lines);
    var sortedInts := new SortingMachine(IntOrder);
    AddToIntMachine(lines, sortedInts);
    sortedStrs := new SortingMachine(StrOrder);
    maxword := 0;
    sortedInts.ChangeToExtractionMode();
    sel, rest := multiset{}, multiset{};
    if sortedInts.Size() > 0 {
      ghost var drawn: seq<Entry>;
      maxword, drawn := SelectTop(n, sortedInts, sortedStrs);
      assert multiset{} + multiset(Pairs(table)) == multiset(Pairs(table));
      TopOfExtraction(table, n, drawn);
      sel := multiset(drawn);
      rest := multiset(Pairs(table)) - sel;
    } else {
      EmptyTable(table, n);
    }
    SelectedCounts(Separators, lines, n, maxword, sel, rest);
  }

  /** The output loop of printAll: n rounds, each switching sortedStrs to
      extraction mode if needed and emitting its first pair, if any, with its
      calcSize font size. alpha lists the pairs emitted, in order. */
  method EmitTags(n: int, sortedStrs: SortingMachine, maxword: int)
    returns (tags: seq<Tag>, ghost alpha: seq<Entry>)
    requires maxword >= 0
    requires forall e :: e in sortedStrs.contents ==> 0 < e.count <= maxword
    modifies sortedStrs
    ensures IsExtractionOrder(sortedStrs.order, alpha, old(sortedStrs.contents))
    ensures |alpha| == Min(Clamp(n), |old(sortedStrs.contents)|)
    ensures sortedStrs.contents == old(sortedStrs.contents) - multiset(alpha)
    ensures Emits(alpha, maxword, tags)
    ensures sortedStrs.insertionMode == (old(sortedStrs.insertionMode) && alpha == [])
  {
    ghost var m0 := sortedStrs.contents;
    tags, alpha := [], [];
    var i := 0;
    while i < n
      invariant 0 <= i <= Clamp(n) && |alpha| == Min(i, |m0|)
      invariant IsExtractionOrder(sortedStrs.order, alpha, m0)
      invariant sortedStrs.contents == m0 - multiset(alpha)
      invariant |sortedStrs.contents| == |m0| - |alpha|
      invariant Emits(alpha, maxword, tags)
      invariant sortedStrs.insertionMode == (old(sortedStrs.insertionMode) && alpha == [])
    {
      if sortedStrs.Size() > 0 {
        assert |alpha| == i < |m0|;
        ghost var before := sortedStrs.contents;
        var pStr := TakeFirst(sortedStrs);
        var size := CalcSize(n, pStr.count, maxword);
        EmitsSnoc(alpha, maxword, tags, pStr, size);
        alpha := ExtractStep(sortedStrs.order, alpha, m0, before, pStr, sortedStrs.contents);
        tags := tags + [Tag(size, pStr.count, pStr.word)];
      } else {
        assert |alpha| == |m0|;
      }
      i := i + 1;
    }
  }

  /** One round of the output loop of printAll: switch to extraction mode
      if the machine is still in insertion mode, then removeFirst. */
  method TakeFirst(s: SortingMachine) returns (x: Entry)
    requires |s.contents| > 0
    modifies s
    ensures IsFirst(s.order, x, old(s.contents))
    ensures s.contents == old(s.contents) - multiset{x}
    ensures !s.insertionMode
  {
    if s.IsInInsertionMode() {
      s.ChangeToExtractionMode();
    }
    x := s.RemoveFirst();
  }
}
