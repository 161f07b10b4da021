/** TagCloudGeneratorSJC: the variant built on HashMap and ArrayList. */
module TagCloudGeneratorSJC {
  import opened Ordering
  import opened Tokenizer
  import opened Frequency
  import opened FontSize
  import opened TagCloud
  import opened Collections

  /** The separator characters of this variant; they include the apostrophe
      and the backtick. */
  const SeparatorsStr: string := "/\t\n\r.,&!? []{}|-=+@#$%*\"()'`"

  const Separators: set<char> := set c | c in SeparatorsStr

  lemma SeparatorsBuilt(s: set<char>)
    requires forall c :: c in s <==> c in SeparatorsStr
    ensures s == Separators
  {
  }

  /** addToIntList: counts the words of the lines in a HashMap, then appends
      its entries to sInts in the map's (unspecified) iteration order. */
  method AddToIntList(lines: seq<string>, sInts: EntryList)
    modifies sInts
    ensures old(sInts.items) <= sInts.items
    ensures multiset(sInts.items[|old(sInts.items)|..]) ==
            multiset(Pairs(Table(Separators, lines)))
  {
    var separators := BuildSeparators(SeparatorsStr);
    SeparatorsBuilt(separators);
    var words := CountWords(lines, separators);
    AddEntries(words, sInts);
  }

  /** The last loop of addToIntList: every entry of the HashMap appended to
      sInts, in the map's iteration order. */
  method AddEntries(words: map<string, int>, sInts: EntryList)
    modifies sInts
    ensures old(sInts.items) <= sInts.items
    ensures multiset(sInts.items[|old(sInts.items)|..]) == multiset(Pairs(words))
  {
    var rest := words;
    ghost var added: seq<Entry> := [];
    while rest != map[]
      invariant sInts.items == old(sInts.items) + added
      invariant multiset(added) + multiset(Pairs(rest)) == multiset(Pairs(words))
      decreases rest.Keys
    {
      var w :| w in rest;
      var p := Entry(w, rest[w]);
      sInts.Add(p);
      DrainStep(added, rest, multiset(Pairs(words)), w);
      added := added + [p];
      rest := rest - {w};
    }
    assert sInts.items[|old(sInts.items)|..] == added;
  }

  /** addToStringListReturnMax as written: sorts sInts by IntOrder, removes
      the first pair as the maximum, then n times adds the current pair to
      sStrs and removes the next one. The last removal needs an (n+1)-th
      pair; remove(0) on an empty list throws. */
  method AddToStringListReturnMax(n: int, sInts: EntryList, sStrs: EntryList)
    returns (r: Selection, ghost sorted: seq<Entry>)
    requires sInts != sStrs
    requires |sInts.items| > 0 && |sStrs.items| == 0
    modifies sInts, sStrs
    ensures SortedBy(IntOrder, sorted) && multiset(sorted) == multiset(old(sInts.items))
    ensures r.Selected? <==> |sorted| > n
    ensures r.Selected? ==>
      r.max == sorted[0].count &&
      sStrs.items == sorted[..Clamp(n)] && sInts.items == sorted[Clamp(n) + 1..]
    ensures r.RemovedFromEmpty? ==> sStrs.items == sorted && sInts.items == []
  {
    sInts.Sort(IntOrder);
    sorted := sInts.items;
    var p := sInts.Remove(0);
    var max := p.count;
    var i := 0;
    while i < n
      invariant 0 <= i <= Clamp(n) && i < |sorted|
      invariant p == sorted[i] && sStrs.items == sorted[..i] && sInts.items == sorted[i + 1..]
      invariant max == sorted[0].count
    {
      sStrs.Add(p);
      assert sStrs.items == sorted[..i + 1];
      if sInts.Size() == 0 {
        assert i + 1 == |sorted|;
        assert sorted[..i + 1] == sorted;
        r := RemovedFromEmpty;
        return;
      }
      p := sInts.Remove(0);
      i := i + 1;
    }
    assert i == Clamp(n);
    r := Selected(max);
  }

  /** When the selection as written succeeds (more than n pairs), the pairs
      it leaves in sStrs are those the corrected selection moves for the
      same sorted list: the first n, a top-n selection of the table, headed
      by its largest count. */
  lemma AsWrittenAgrees(table: map<string, int>, n: int, sorted: seq<Entry>)
    requires n > 0 && |sorted| > n
    requires SortedBy(IntOrder, sorted) && multiset(sorted) == multiset(Pairs(table))
    ensures sorted[..Clamp(n)] == sorted[..Min(n, |sorted|)]
    ensures IsMaxCount(table, sorted[0].count)
    ensures IsSelection(table, n, multiset(sorted[..Clamp(n)]), multiset(sorted[Clamp(n)..]))
  {
    TopOfSorted(table, n, sorted);
  }

  /** With one distinct word and n = 1 the selection as written removes from
      an empty list. */
  method OneWordSelectionFails() returns (r: Selection)
    ensures r == RemovedFromEmpty
  {
    var sInts := new EntryList();
    sInts.Add(Entry("cat", 1));
    var sStrs := new EntryList();
    ghost var sorted: seq<Entry>;
    r, sorted := AddToStringListReturnMax(1, sInts, sStrs);
    assert |multiset(sorted)| == |multiset([Entry("cat", 1)])| == 1;
  }

  /** The selection with the look-ahead removal dropped: sorts sInts by
      IntOrder and moves its first min(n, |sInts|) pairs to sStrs; the count
      of the first is the maximum. */
  method SelectTop(n: int, sInts: EntryList, sStrs: EntryList)
    returns (max: int, ghost sorted: seq<Entry>)
    requires sInts != sStrs
    requires |sInts.items| > 0 && |sStrs.items| == 0 && n > 0
    modifies sInts, sStrs
    ensures SortedBy(IntOrder, sorted) && multiset(sorted) == multiset(old(sInts.items))
    ensures max == sorted[0].count
    ensures sStrs.items == sorted[..Min(n, |sorted|)] && sInts.items == sorted[Min(n, |sorted|)..]
  {
    sInts.Sort(IntOrder);
    sorted := sInts.items;
    var p := sInts.Remove(0);
    max := p.count;
    sStrs.Add(p);
    var i := 1;
    while i < n && sInts.Size() > 0
      invariant 1 <= i <= Min(n, |sorted|)
      invariant sStrs.items == sorted[..i] && sInts.items == sorted[i..]
    {
      p := sInts.Remove(0);
      sStrs.Add(p);
      assert sorted[..i + 1] == sorted[..i] + [sorted[i]];
      i := i + 1;
    }
  }

  /** printAll, from the counted lines to the printTags calls: the n most
      frequent words (all of them when there are fewer), in ascending word
      order, each sized against the largest count of all words. */
  method PrintAll(n: int, lines: seq<string>) returns (tags: seq<Tag>, maxword: int)
    requires n > 0
    ensures IsMaxCount(Table(Separators, lines), maxword)
    ensures IsTagCloud(Table(Separators, lines), n, maxword, tags)
  {
    var sortedStrs: EntryList;
    ghost var sel: multiset<Entry>, rest: multiset<Entry>;
    sortedStrs, maxword, sel, rest := SelectWords(n, lines);
    sortedStrs.Sort(StrOrder);
    ghost var alpha := sortedStrs.items;
    assert |alpha| == |sel| <= n;
    tags := EmitTags(n, sortedStrs, maxword);
    assert alpha[..Min(Clamp(n), |alpha|)] == alpha;
    CloudFromSelection(Table(Separators, lines), n, maxword, sel, rest, alpha, tags);
  }

  /** The first half of printAll: the pairs counted by addToIntList and, when
      there are any, the ones addToStringListReturnMax moves to sortedStrs
      (here with the look-ahead removal dropped), with the largest count. */
  method SelectWords(n: int, lines: seq<string>)
    returns (sortedStrs: EntryList, maxword: int, ghost sel: multiset<Entry>, ghost rest: multiset<Entry>)
    requires n > 0
    ensures fresh(sortedStrs)
    ensures IsMaxCount(Table(Separators, lines), maxword)
    ensures IsSelection(Table(Separators, lines), n, sel, rest) && multiset(sortedStrs.items) == sel
    ensures forall e :: e in sortedStrs.items ==> 0 < e.count <= maxword
  {
    ghost var table := Table(Separators, lines);
    var sortedInts := new EntryList();
    AddToIntList(lines, sortedInts);
    sortedStrs := new EntryList();
    maxword := 0;
    sel, rest := multiset{}, multiset{};
    if sortedInts.Size() > 0 {
      ghost var sorted: seq<Entry>;
      maxword, sorted := SelectTop(n, sortedInts, sortedStrs);
      TopOfSorted(table, n, sorted);
      sel := multiset(sorted[..Min(n, |sorted|)]);
      rest := multiset(sorted[Min(n, |sorted|)..]);
    } else {
      EmptyTable(table, n);
    }
    SelectedCounts(Separators, lines, n, maxword, sel, rest);
    forall e | e in sortedStrs.items ensures 0 < e.count <= maxword {
      assert e in sel;
    }
  }

  /** The output loop of printAll: n rounds, each removing the first pair of
      sortedStrs, if any, and emitting it with its calcSize font size. */
  method EmitTags(n: int, sortedStrs: EntryList, maxword: int) returns (tags: seq<Tag>)
    requires maxword >= 0
    requires forall e :: e in sortedStrs.items ==> 0 < e.count <= maxword
    modifies sortedStrs
    ensures Emits(old(sortedStrs.items)[..Min(Clamp(n), |old(sortedStrs.items)|)], maxword, tags)
    ensures sortedStrs.items == old(sortedStrs.items)[Min(Clamp(n), |old(sortedStrs.items)|)..]
  {
    ghost var alpha := sortedStrs.items;
    tags := [];
    var i := 0;
    while i < n
      invariant 0 <= i <= Clamp(n)
      invariant |tags| == Min(i, |alpha|)
      invariant sortedStrs.items == alpha[|tags|..]
      invariant Emits(alpha[..|tags|], maxword, tags)
    {
      if sortedStrs.Size() > 0 {
        var pStr := sortedStrs.Remove(0);
        assert pStr == alpha[|tags|];
        var size := CalcSize(n, pStr.count, maxword);
        EmitsSnoc(alpha[..|tags|], maxword, tags, pStr, size);
        assert alpha[..|tags| + 1] == alpha[..|tags|] + [pStr];
        tags := tags + [Tag(size, pStr.count, pStr.word)];
      }
      i := i + 1;
    }
  }
}
