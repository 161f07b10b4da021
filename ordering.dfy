/** Word/count pairs, the two comparators of the tag cloud and the sorting
    facts the programs rely on (a sorted permutation, a first element). */
module Ordering {

  /** A word with its count: Map.Entry<String, Integer> in one program,
      Map.Pair<String, Integer> in the other. */
  datatype Entry = Entry(word: string, count: int)

  /** The two comparators both programs define. */
  datatype Comparator = IntOrder | StrOrder

  /** Integer.compareTo: -1, 0 or 1, with the sign of x - y. */
  function IntegerCompareTo(x: int, y: int): (r: int)
    ensures -1 <= r <= 1
    ensures (r < 0 <==> x < y) && (r == 0 <==> x == y) && (r > 0 <==> x > y)
  {
    if x < y then -1 else if x == y then 0 else 1
  }

  /** String.compareTo: the difference of the first pair of differing
      characters, or else the difference of the lengths; zero exactly on
      equal strings. */
  function CompareTo(a: string, b: string): (r: int)
    ensures r == 0 <==> a == b
  {
    if |a| == 0 || |b| == 0 then |a| - |b|
    else if a[0] != b[0] then a[0] as int - b[0] as int
    else
      assert a == [a[0]] + a[1..] && b == [b[0]] + b[1..];
      CompareTo(a[1..], b[1..])
  }

  /** IntOrder compares the second count with the first, so that it orders
      by descending counts; StrOrder compares the keys, ascending. */
  function Compare(c: Comparator, o1: Entry, o2: Entry): (r: int)
    ensures c == IntOrder ==> (r <= 0 <==> o1.count >= o2.count) && (r == 0 <==> o1.count == o2.count)
    ensures c == StrOrder ==> (r == 0 <==> o1.word == o2.word)
  {
    match c
    case IntOrder => IntegerCompareTo(o2.count, o1.count)
    case StrOrder => CompareTo(o1.word, o2.word)
  }

  lemma {:induction false} CompareToAntisymmetric(a: string, b: string)
    ensures CompareTo(b, a) == -CompareTo(a, b)
  {
    if |a| != 0 && |b| != 0 && a[0] == b[0] {
      CompareToAntisymmetric(a[1..], b[1..]);
    }
  }

  lemma {:induction false} CompareToTransitive(a: string, b: string, c: string)
    requires CompareTo(a, b) <= 0 && CompareTo(b, c) <= 0
    ensures CompareTo(a, c) <= 0
  {
    if |a| != 0 && |b| != 0 && |c| != 0 && a[0] == b[0] && b[0] == c[0] {
      CompareToTransitive(a[1..], b[1..], c[1..]);
    }
  }

  /** Both comparators are total preorders. */
  lemma CompareIsTotalPreorder(c: Comparator, a: Entry, b: Entry, d: Entry)
    ensures Compare(c, a, a) == 0
    ensures Compare(c, a, b) <= 0 || Compare(c, b, a) <= 0
    ensures Compare(c, a, b) <= 0 && Compare(c, b, d) <= 0 ==> Compare(c, a, d) <= 0
    ensures c == IntOrder ==> (Compare(c, a, b) <= 0 <==> a.count >= b.count)
    ensures c == StrOrder ==> (Compare(c, a, b) == 0 <==> a.word == b.word)
  {
    CompareToAntisymmetric(a.word, b.word);
    if Compare(c, a, b) <= 0 && Compare(c, b, d) <= 0 && c == StrOrder {
      CompareToTransitive(a.word, b.word, d.word);
    }
  }

  predicate SortedBy(c: Comparator, s: seq<Entry>)
  {
    forall i, j {:trigger Compare(c, s[i], s[j])} :: 0 <= i < j < |s| ==> Compare(c, s[i], s[j]) <= 0
  }

  /** x is a first element of m under c: no element of m comes before it. */
  predicate IsFirst(c: Comparator, x: Entry, m: multiset<Entry>)
  {
    x in m && forall y {:trigger Compare(c, x, y)} :: y in m ==> Compare(c, x, y) <= 0
  }

  function Insert(c: Comparator, x: Entry, s: seq<Entry>): seq<Entry>
  {
    if s == [] then [x]
    else if Compare(c, x, s[0]) <= 0 then [x] + s
    else [s[0]] + Insert(c, x, s[1..])
  }

  lemma CompareTotal(c: Comparator, a: Entry, b: Entry)
    ensures Compare(c, a, b) <= 0 || Compare(c, b, a) <= 0
  {
    CompareToAntisymmetric(a.word, b.word);
  }

  lemma CompareTransitive(c: Comparator, a: Entry, b: Entry, d: Entry)
    requires Compare(c, a, b) <= 0 && Compare(c, b, d) <= 0
    ensures Compare(c, a, d) <= 0
  {
    if c == StrOrder {
      CompareToTransitive(a.word, b.word, d.word);
    }
  }

  lemma {:induction false} InsertPermutes(c: Comparator, x: Entry, s: seq<Entry>)
    ensures multiset(Insert(c, x, s)) == multiset{x} + multiset(s)
  {
    if s != [] {
      assert s == [s[0]] + s[1..];
      if Compare(c, x, s[0]) > 0 {
        InsertPermutes(c, x, s[1..]);
      }
    }
  }

  lemma {:induction false} InsertSorted(c: Comparator, x: Entry, s: seq<Entry>)
    requires SortedBy(c, s)
    ensures SortedBy(c, Insert(c, x, s))
    ensures multiset(Insert(c, x, s)) == multiset{x} + multiset(s)
  {
    InsertPermutes(c, x, s);
    if s == [] {
    } else if Compare(c, x, s[0]) <= 0 {
      forall j | 0 <= j < |s| ensures Compare(c, x, s[j]) <= 0 {
        if j > 0 { CompareTransitive(c, x, s[0], s[j]); }
      }
      ConsSorted(c, x, s);
    } else {
      var t := Insert(c, x, s[1..]);
      InsertSorted(c, x, s[1..]);
      HeadBeforeInserted(c, x, s, t);
      ConsSorted(c, s[0], t);
    }
  }

  /** Helper of InsertSorted: putting an element that precedes the head of a
      sorted sequence in front keeps it sorted. */
  lemma ConsSorted(c: Comparator, x: Entry, s: seq<Entry>)
    requires SortedBy(c, s)
    requires forall j :: 0 <= j < |s| ==> Compare(c, x, s[j]) <= 0
    ensures SortedBy(c, [x] + s)
  {
    var r := [x] + s;
    forall i, j | 0 <= i < j < |r| ensures Compare(c, r[i], r[j]) <= 0 {
      if i > 0 {
        assert r[i] == s[i - 1] && r[j] == s[j - 1];
      }
    }
  }

  /** Helper of InsertSorted: the head of s precedes everything in the
      insertion of x into the tail, when x does not go first. */
  lemma HeadBeforeInserted(c: Comparator, x: Entry, s: seq<Entry>, t: seq<Entry>)
    requires SortedBy(c, s) && s != [] && Compare(c, x, s[0]) > 0
    requires multiset(t) == multiset{x} + multiset(s[1..])
    ensures forall j :: 0 <= j < |t| ==> Compare(c, s[0], t[j]) <= 0
  {
    forall j | 0 <= j < |t| ensures Compare(c, s[0], t[j]) <= 0 {
      assert t[j] in multiset(t);
      if t[j] == x {
        CompareTotal(c, x, s[0]);
      } else {
        assert t[j] in multiset(s[1..]);
        var k :| 0 <= k < |s[1..]| && s[1..][k] == t[j];
        assert s[k + 1] == t[j];
      }
    }
  }

  /** An insertion sort: the sorted permutation List.sort promises. */
  function SortBy(c: Comparator, s: seq<Entry>): (r: seq<Entry>)
    ensures SortedBy(c, r)
    ensures multiset(r) == multiset(s)
  {
    if s == [] then []
    else
      var t := SortBy(c, s[1..]);
      InsertSorted(c, s[0], t);
      assert s == [s[0]] + s[1..];
      Insert(c, s[0], t)
  }

  /** Every non-empty collection has a first element under either
      comparator: the element removeFirst returns exists. */
  lemma {:induction false} FirstExists(c: Comparator, m: multiset<Entry>)
    requires |m| > 0
    ensures exists x :: IsFirst(c, x, m)
    decreases |m|
  {
    var z :| z in m;
    var rest := m - multiset{z};
    assert m == rest + multiset{z};
    if |rest| == 0 {
      assert rest == multiset{};
      SingleFirst(c, z);
      assert IsFirst(c, z, m);
    } else {
      FirstExists(c, rest);
      var x :| IsFirst(c, x, rest);
      FirstOfAdded(c, rest, x, z);
      assert IsFirst(c, z, m) || IsFirst(c, x, m);
    }
  }

  lemma SingleFirst(c: Comparator, z: Entry)
    ensures IsFirst(c, z, multiset{z})
  {
    forall y | y in multiset{z} ensures Compare(c, z, y) <= 0 {
      assert Compare(c, z, z) == 0;
    }
  }

  /** Adding z to a collection whose first element is x: z or x comes first. */
  lemma FirstOfAdded(c: Comparator, rest: multiset<Entry>, x: Entry, z: Entry)
    requires IsFirst(c, x, rest)
    ensures IsFirst(c, z, rest + multiset{z}) || IsFirst(c, x, rest + multiset{z})
  {
    var m := rest + multiset{z};
    if Compare(c, z, x) <= 0 {
      forall y | y in m ensures Compare(c, z, y) <= 0 {
        if y == z { assert Compare(c, z, z) == 0; }
        else { assert y in rest; CompareTransitive(c, z, x, y); }
      }
      assert IsFirst(c, z, m);
    } else {
      forall y | y in m ensures Compare(c, x, y) <= 0 {
        if y == z { CompareTotal(c, z, x); }
        else { assert y in rest; }
      }
      assert IsFirst(c, x, m);
    }
  }

  /** Under IntOrder a sorted sequence has non-increasing counts. */
  lemma DescendingCounts(s: seq<Entry>, i: int, j: int)
    requires SortedBy(IntOrder, s) && 0 <= i <= j < |s|
    ensures s[j].count <= s[i].count
  {
    if i < j {
      assert Compare(IntOrder, s[i], s[j]) <= 0;
    }
  }

  /** xs lists elements drawn from m one at a time, each first under c among
      those not yet drawn: the order in which removeFirst yields them. */
  ghost predicate IsExtractionOrder(c: Comparator, xs: seq<Entry>, m: multiset<Entry>)
  {
    if xs == [] then true
    else
      var init := xs[..|xs| - 1];
      IsExtractionOrder(c, init, m) && IsFirst(c, xs[|xs| - 1], m - multiset(init))
  }

  lemma ExtractionSnoc(c: Comparator, xs: seq<Entry>, x: Entry, m: multiset<Entry>)
    requires IsExtractionOrder(c, xs, m) && IsFirst(c, x, m - multiset(xs))
    ensures IsExtractionOrder(c, xs + [x], m)
  {
    assert (xs + [x])[..|xs|] == xs;
  }

  /** One removeFirst on a machine holding what is left of m after xs:
      xs + [x] is again an extraction order and after is what is left of it. */
  lemma ExtractStep(c: Comparator, xs: seq<Entry>, m: multiset<Entry>,
                    before: multiset<Entry>, x: Entry, after: multiset<Entry>)
    returns (xs': seq<Entry>)
    requires IsExtractionOrder(c, xs, m) && before == m - multiset(xs)
    requires |before| == |m| - |xs|
    requires IsFirst(c, x, before) && after == before - multiset{x}
    ensures xs' == xs + [x] && IsExtractionOrder(c, xs', m)
    ensures after == m - multiset(xs') && |after| == |m| - |xs'|
  {
    ExtractionSnoc(c, xs, x, m);
    xs' := xs + [x];
    assert multiset(xs') == multiset(xs) + multiset{x};
  }

  /** A sub-multiset as large as the whole is the whole. */
  lemma SubMultisetFull(a: multiset<Entry>, b: multiset<Entry>)
    requires a <= b && |a| == |b|
    ensures a == b
  {
    var d := b - a;
    assert b == a + d;
    assert |d| == 0;
  }

  /** The drawn elements are elements of m. */
  lemma {:induction false} ExtractionContained(c: Comparator, xs: seq<Entry>, m: multiset<Entry>)
    requires IsExtractionOrder(c, xs, m)
    ensures multiset(xs) <= m
  {
    if xs != [] {
      var init := xs[..|xs| - 1];
      ExtractionContained(c, init, m);
      assert xs == init + [xs[|xs| - 1]];
      assert xs[|xs| - 1] in m - multiset(init);
    }
  }

  lemma {:induction false} ExtractionPrefix(c: Comparator, xs: seq<Entry>, m: multiset<Entry>, k: nat)
    requires IsExtractionOrder(c, xs, m) && k <= |xs|
    ensures IsExtractionOrder(c, xs[..k], m)
    decreases |xs|
  {
    if k < |xs| {
      var init := xs[..|xs| - 1];
      ExtractionPrefix(c, init, m, k);
      assert init[..k] == xs[..k];
    } else {
      assert xs[..k] == xs;
    }
  }

  /** What is left after drawing xs[..i] is the rest of xs and what is left
      after drawing all of xs. */
  lemma RemainingAfter(xs: seq<Entry>, m: multiset<Entry>, i: nat)
    requires multiset(xs) <= m && i <= |xs|
    ensures m - multiset(xs[..i]) == multiset(xs[i..]) + (m - multiset(xs))
  {
    assert xs == xs[..i] + xs[i..];
    assert multiset(xs) == multiset(xs[..i]) + multiset(xs[i..]);
  }

  lemma ExtractedFirst(c: Comparator, xs: seq<Entry>, m: multiset<Entry>, i: nat)
    requires IsExtractionOrder(c, xs, m) && i < |xs|
    ensures IsFirst(c, xs[i], m - multiset(xs[..i]))
  {
    ExtractionPrefix(c, xs, m, i + 1);
    assert xs[..i + 1][..i] == xs[..i];
  }

  /** Elements come out sorted, and each precedes everything left behind. */
  lemma ExtractionSorted(c: Comparator, xs: seq<Entry>, m: multiset<Entry>)
    requires IsExtractionOrder(c, xs, m)
    ensures SortedBy(c, xs)
    ensures forall i, y :: 0 <= i < |xs| && y in m - multiset(xs) ==> Compare(c, xs[i], y) <= 0
  {
    ExtractionContained(c, xs, m);
    forall i, j | 0 <= i < j < |xs| ensures Compare(c, xs[i], xs[j]) <= 0 {
      ExtractedFirst(c, xs, m, i);
      RemainingAfter(xs, m, i);
      assert xs[j] == xs[i..][j - i];
    }
    forall i, y | 0 <= i < |xs| && y in m - multiset(xs) ensures Compare(c, xs[i], y) <= 0 {
      ExtractedFirst(c, xs, m, i);
      RemainingAfter(xs, m, i);
    }
  }
}
