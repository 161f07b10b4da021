/** What printAll emits: one (font size, count, word) instruction per
    printTags call, and the properties of that emitted sequence. */
module TagCloud {
  import opened Ordering
  import opened Frequency
  import opened FontSize

  /** The arguments of one printTags call. */
  datatype Tag = Tag(size: int, count: int, word: string)

  /** The outcome of the selection as the programs write it: the largest
      count, or a removal from an empty collection. */
  datatype Selection = Selected(max: int) | RemovedFromEmpty

  /** How many times a loop "for (i = 0; i < n; i++)" runs. */
  function Clamp(n: int): nat
  {
    if n < 0 then 0 else n
  }

  /** maxword is the largest count of the table, or 0 for an empty table. */
  ghost predicate IsMaxCount(table: map<string, int>, maxword: int)
  {
    if |table| == 0 then maxword == 0
    else (exists w :: w in table && table[w] == maxword) &&
         (forall w :: w in table ==> table[w] <= maxword)
  }

  ghost predicate Shown(tags: seq<Tag>, w: string)
  {
    exists i :: 0 <= i < |tags| && tags[i].word == w
  }

  /** tags is a tag cloud of the n most frequent words of table: min(n, |table|)
      entries, each a key with its count and the size calcSize gives it
      against maxword, in strictly ascending word order, and no word left
      out has a larger count than a word shown. */
  ghost predicate IsTagCloud(table: map<string, int>, n: int, maxword: int, tags: seq<Tag>)
  {
    maxword >= 0 &&
    |tags| == Min(n, |table|) &&
    (forall i :: 0 <= i < |tags| ==>
       tags[i].word in table && tags[i].count == table[tags[i].word] &&
       tags[i].size == SizeFormula(tags[i].count, maxword)) &&
    (forall i, j :: 0 <= i < j < |tags| ==> CompareTo(tags[i].word, tags[j].word) < 0) &&
    (forall i, w :: 0 <= i < |tags| && w in table && !Shown(tags, w) ==> table[w] <= tags[i].count)
  }

  /** The printTags call for one pair. */
  function Emitted(e: Entry, maxword: int): Tag
    requires maxword >= 0
  {
    Tag(SizeFormula(e.count, maxword), e.count, e.word)
  }

  /** tags are the printTags calls for the pairs of alpha, in order: the
      calls for all but the last pair, then the call for the last. */
  ghost predicate Emits(alpha: seq<Entry>, maxword: int, tags: seq<Tag>)
    requires maxword >= 0
    decreases |alpha|
  {
    |tags| == |alpha| &&
    (|alpha| > 0 ==>
       Emits(alpha[..|alpha| - 1], maxword, tags[..|tags| - 1]) &&
       tags[|tags| - 1] == Emitted(alpha[|alpha| - 1], maxword))
  }

  /** Emitting one more pair extends the emitted instructions by one. */
  lemma EmitsSnoc(alpha: seq<Entry>, maxword: int, tags: seq<Tag>, e: Entry, size: int)
    requires maxword >= 0 && Emits(alpha, maxword, tags) && size == SizeFormula(e.count, maxword)
    ensures Emits(alpha + [e], maxword, tags + [Tag(size, e.count, e.word)])
  {
    assert (alpha + [e])[..|alpha|] == alpha;
    assert (tags + [Tag(size, e.count, e.word)])[..|tags|] == tags;
  }

  /** The i-th instruction is the call for the i-th pair. */
  lemma {:induction false} EmitsAt(alpha: seq<Entry>, maxword: int, tags: seq<Tag>, i: nat)
    requires maxword >= 0 && Emits(alpha, maxword, tags) && i < |tags|
    ensures tags[i] == Emitted(alpha[i], maxword)
    decreases |alpha|
  {
    if i < |tags| - 1 {
      EmitsAt(alpha[..|alpha| - 1], maxword, tags[..|tags| - 1], i);
    }
  }

  /** Emits, pair by pair. */
  lemma EmitsAll(alpha: seq<Entry>, maxword: int, tags: seq<Tag>)
    requires maxword >= 0 && Emits(alpha, maxword, tags)
    ensures |tags| == |alpha|
    ensures forall i :: 0 <= i < |tags| ==> tags[i] == Emitted(alpha[i], maxword)
  {
    forall i | 0 <= i < |tags| ensures tags[i] == Emitted(alpha[i], maxword) {
      EmitsAt(alpha, maxword, tags, i);
    }
  }

  lemma SortedHeadIsFirst(c: Comparator, s: seq<Entry>)
    requires SortedBy(c, s) && |s| > 0
    ensures IsFirst(c, s[0], multiset(s))
  {
    forall y | y in multiset(s) ensures Compare(c, s[0], y) <= 0 {
      var k :| 0 <= k < |s| && s[k] == y;
      if k == 0 { assert Compare(c, s[0], s[0]) == 0; }
    }
  }

  /** The count of a pair that comes first under IntOrder is the largest count. */
  lemma MaxFromFirst(table: map<string, int>, x: Entry)
    requires IsFirst(IntOrder, x, multiset(Pairs(table)))
    ensures IsMaxCount(table, x.count)
  {
    assert x in Pairs(table);
    assert |table| > 0;
    forall w | w in table ensures table[w] <= x.count {
      assert Entry(w, table[w]) in multiset(Pairs(table));
      assert Compare(IntOrder, x, Entry(w, table[w])) <= 0;
    }
  }

  /** sel are min(n, |table|) of the table's pairs and rest the others, and
      no pair left behind has a larger count than a pair selected. */
  ghost predicate IsSelection(table: map<string, int>, n: int,
                              sel: multiset<Entry>, rest: multiset<Entry>)
  {
    sel + rest == multiset(Pairs(table)) &&
    |sel| == Min(n, |sel| + |rest|) &&
    forall a, b :: a in sel && b in rest ==> b.count <= a.count
  }

  /** The first min(n, |sorted|) pairs of the pairs sorted by IntOrder are a
      selection, and the first count is the largest. */
  lemma TopOfSorted(table: map<string, int>, n: int, sorted: seq<Entry>)
    requires n > 0 && |sorted| > 0
    requires SortedBy(IntOrder, sorted) && multiset(sorted) == multiset(Pairs(table))
    ensures IsMaxCount(table, sorted[0].count)
    ensures IsSelection(table, n, multiset(sorted[..Min(n, |sorted|)]),
                        multiset(sorted[Min(n, |sorted|)..]))
  {
    var k := Min(n, |sorted|);
    var sel := multiset(sorted[..k]);
    var rest := multiset(sorted[k..]);
    assert sorted == sorted[..k] + sorted[k..];
    SortedHeadIsFirst(IntOrder, sorted);
    MaxFromFirst(table, sorted[0]);
    forall a, b | a in sel && b in rest ensures b.count <= a.count {
      var x :| 0 <= x < k && sorted[..k][x] == a;
      var y :| 0 <= y < |sorted| - k && sorted[k..][y] == b;
      DescendingCounts(sorted, x, k + y);
    }
  }

  /** The first min(n, |table|) pairs drawn by IntOrder from all the pairs of
      the table are a selection, and the first count is the largest. */
  lemma TopOfExtraction(table: map<string, int>, n: int, xs: seq<Entry>)
    requires n > 0 && |xs| > 0
    requires IsExtractionOrder(IntOrder, xs, multiset(Pairs(table)))
    requires |xs| == Min(n, |multiset(Pairs(table))|)
    ensures IsMaxCount(table, xs[0].count)
    ensures IsSelection(table, n, multiset(xs), multiset(Pairs(table)) - multiset(xs))
  {
    var all := multiset(Pairs(table));
    ExtractionContained(IntOrder, xs, all);
    ExtractionSorted(IntOrder, xs, all);
    ExtractedFirst(IntOrder, xs, all, 0);
    assert xs[..0] == [];
    MaxFromFirst(table, xs[0]);
    var sel := multiset(xs);
    var rest := all - sel;
    assert sel + rest == all;
    forall a, b | a in sel && b in rest ensures b.count <= a.count {
      var i :| 0 <= i < |xs| && xs[i] == a;
      assert Compare(IntOrder, xs[i], b) <= 0;
    }
  }

  /** A table without pairs has no keys: its largest count is 0 and the
      empty selection is the only one. */
  lemma EmptyTable(table: map<string, int>, n: int)
    requires n >= 0 && multiset(Pairs(table)) == multiset{}
    ensures IsMaxCount(table, 0) && IsSelection(table, n, multiset{}, multiset{})
  {
    PairsCard(table);
    assert |Pairs(table)| == |multiset(Pairs(table))| == 0;
  }

  /** Emitting a selection that is drained in ascending word order yields a
      tag cloud. Both programs end in this situation. */
  lemma CloudFromSelection(table: map<string, int>, n: int, maxword: int,
                           sel: multiset<Entry>, rest: multiset<Entry>,
                           alpha: seq<Entry>, tags: seq<Tag>)
    requires IsSelection(table, n, sel, rest)
    requires multiset(alpha) == sel && SortedBy(StrOrder, alpha)
    requires maxword >= 0 && Emits(alpha, maxword, tags)
    ensures IsTagCloud(table, n, maxword, tags)
  {
    PairsCard(table);
    EmitsAll(alpha, maxword, tags);
    assert |sel + rest| == |Pairs(table)|;
    DistinctWords(alpha, table);
    forall i | 0 <= i < |tags|
      ensures tags[i].word in table && tags[i].count == table[tags[i].word]
    {
      assert alpha[i] in multiset(alpha);
      assert alpha[i] in Pairs(table);
    }
    forall i, j | 0 <= i < j < |tags|
      ensures CompareTo(tags[i].word, tags[j].word) < 0
    {
      assert Compare(StrOrder, alpha[i], alpha[j]) <= 0;
    }
    forall i, w | 0 <= i < |tags| && w in table && !Shown(tags, w)
      ensures table[w] <= tags[i].count
    {
      var e := Entry(w, table[w]);
      assert e in Pairs(table);
      assert e in rest;
      assert alpha[i] in multiset(alpha);
    }
  }

  /** The pairs of a selection have positive counts no larger than the
      largest count of the table. */
  lemma SelectedCounts(seps: set<char>, lines: seq<string>, n: int, maxword: int,
                       sel: multiset<Entry>, rest: multiset<Entry>)
    requires IsMaxCount(Table(seps, lines), maxword)
    requires IsSelection(Table(seps, lines), n, sel, rest)
    ensures forall e :: e in sel ==> 0 < e.count <= maxword
  {
    TableInvariant(seps, lines);
    forall e | e in sel ensures 0 < e.count <= maxword {
      assert e in sel + rest;
      assert e in Pairs(Table(seps, lines));
    }
  }

  /** Every emitted instruction meets printTags' assertions (a non-empty word,
      a positive count) and has a size in [MinSize, MinSize + Sizes - 1]. */
  lemma PrintTagsPreconditions(seps: set<char>, lines: seq<string>, n: int,
                               maxword: int, tags: seq<Tag>)
    requires IsMaxCount(Table(seps, lines), maxword)
    requires IsTagCloud(Table(seps, lines), n, maxword, tags)
    ensures forall i :: 0 <= i < |tags| ==>
      |tags[i].word| > 0 && tags[i].count > 0 &&
      MinSize <= tags[i].size <= MinSize + Sizes - 1
  {
    TableInvariant(seps, lines);
    forall i | 0 <= i < |tags|
      ensures MinSize <= tags[i].size <= MinSize + Sizes - 1
    {
      SizeBounds(tags[i].count, maxword);
    }
  }
}
