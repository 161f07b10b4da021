/** One input worked through both programs: the tag cloud of the two most
    frequent words of three short lines. */
module WorkedExample {
  import opened Ordering
  import opened Tokenizer
  import opened Frequency
  import opened FontSize
  import opened TagCloud
  import Variants
  import SJC = TagCloudGeneratorSJC
  import Gen1 = TagCloudGenerator

  /** Each of "the" and "cat" twice, in two spellings, and "dog" once. */
  const Lines: seq<string> := ["The cat", "the CAT", "dog"]

  const Counts: map<string, int> := map["the" := 2, "cat" := 2, "dog" := 1]

  const Cloud: seq<Tag> := [Tag(13, 2, "cat"), Tag(13, 2, "the")]

  /** The characters of the example: the space separates, the letters do not. */
  ghost predicate SplitsAtSpace(seps: set<char>)
  {
    ' ' in seps &&
    't' !in seps && 'h' !in seps && 'e' !in seps && 'c' !in seps &&
    'a' !in seps && 'd' !in seps && 'o' !in seps && 'g' !in seps
  }

  lemma CatRuns(seps: set<char>)
    requires SplitsAtSpace(seps)
    ensures RunsFrom(seps, "the cat", 0) == ["the", " ", "cat"]
  {
    var s := "the cat";
    SpaceCatRuns(seps);
    assert s[0..3] == "the" && s[3] == ' ';
    RunsFromStep(seps, s, 0, "the");
  }

  lemma SpaceCatRuns(seps: set<char>)
    requires SplitsAtSpace(seps)
    ensures RunsFrom(seps, "the cat", 3) == [" ", "cat"]
  {
    var s := "the cat";
    assert s[3..4] == " " && s[4..7] == "cat";
    RunsFromStep(seps, s, 4, "cat");
    RunsFromStep(seps, s, 3, " ");
  }

  lemma LowerSpellings()
    ensures LowerLine("The cat") == "the cat" && LowerLine("the CAT") == "the cat"
  {
    assert Lower('T') == 't';
    assert Lower('C') == 'c' && Lower('A') == 'a';
  }

  lemma CatWords(seps: set<char>)
    requires SplitsAtSpace(seps)
    ensures WordsOf(seps, RunsFrom(seps, "the cat", 0)) == ["the", "cat"]
  {
    CatRuns(seps);
    var runs := ["the", " ", "cat"];
    assert runs[..2][..1] == ["the"] && runs[..2] == ["the", " "];
    assert ["the"][..0] == [];
    assert WordsOf(seps, ["the"]) == ["the"];
    assert WordsOf(seps, ["the", " "]) == ["the"];
  }

  lemma DogWords(seps: set<char>)
    requires SplitsAtSpace(seps)
    ensures LineWords(seps, "dog") == ["dog"]
  {
    var s := "dog";
    assert LowerLine(s) == s;
    assert s[0..3] == s;
    RunsFromStep(seps, s, 0, s);
    assert RunsFrom(seps, s, 0) == [s];
    assert [s][..0] == [];
    assert WordsOf(seps, [s]) == [s];
  }

  /** Both spellings of the first two lines have the words "the" and "cat". */
  lemma ExampleWords(seps: set<char>)
    requires SplitsAtSpace(seps)
    ensures AllWords(seps, Lines) == ["the", "cat", "the", "cat", "dog"]
  {
    LowerSpellings();
    CatWords(seps);
    DogWords(seps);
    assert LineWords(seps, Lines[0]) == ["the", "cat"];
    assert LineWords(seps, Lines[1]) == ["the", "cat"];
    assert Lines[..1][..0] == [] && Lines[..2][..1] == Lines[..1] && Lines[..3] == Lines;
    assert AllWords(seps, Lines[..1]) == ["the", "cat"];
    assert AllWords(seps, Lines[..2]) == ["the", "cat", "the", "cat"];
  }

  /** Counting the example's words one at a time. */
  lemma ExampleTally()
    ensures Tally(["the", "cat", "the", "cat", "dog"]) == Counts
  {
    var ws := ["the", "cat", "the", "cat", "dog"];
    assert ws[..4] == ["the", "cat", "the", "cat"] && ws[..4][..3] == ["the", "cat", "the"];
    assert ws[..3][..2] == ["the", "cat"] && ws[..2][..1] == ["the"] && ws[..1][..0] == [];
    assert Tally(["the"]) == map["the" := 1];
    assert Tally(["the", "cat"]) == map["the" := 1, "cat" := 1];
    assert Tally(["the", "cat", "the"]) == map["the" := 2, "cat" := 1];
    assert Tally(ws[..4]) == map["the" := 2, "cat" := 2];
  }

  /** The table of the example: "the" and "cat" twice, "dog" once. */
  lemma ExampleTable(seps: set<char>)
    requires SplitsAtSpace(seps)
    ensures Table(seps, Lines) == Counts
  {
    ExampleWords(seps);
    ExampleTally();
    TallyIsOccurrences(["the", "cat", "the", "cat", "dog"]);
  }

  lemma WordOrder()
    ensures CompareTo("cat", "the") < 0 && CompareTo("the", "cat") > 0
  {
  }

  lemma ExampleKey(w: string)
    requires w in Counts
    ensures (w == "the" && Counts[w] == 2) || (w == "cat" && Counts[w] == 2) || (w == "dog" && Counts[w] == 1)
  {
  }

  lemma NotShown(tags: seq<Tag>, w: string)
    requires |tags| == 2 && tags[0].word != w && tags[1].word != w
    ensures !Shown(tags, w)
  {
  }

  lemma LeftOutBelow(maxword: int, tags: seq<Tag>, i: int, w: string)
    requires IsTagCloud(Counts, 2, maxword, tags)
    requires 0 <= i < |tags| && w in Counts && !Shown(tags, w)
    ensures Counts[w] <= tags[i].count && tags[i].count == Counts[tags[i].word]
  {
  }

  /** Of the example's keys, two in ascending order that leave out no more
      frequent key are "cat" and "the". */
  lemma ForcedWords(a: string, b: string)
    requires a in Counts && b in Counts && CompareTo(a, b) < 0
    requires forall w :: w in Counts && w != a && w != b ==> Counts[w] <= Counts[a] && Counts[w] <= Counts[b]
    ensures a == "cat" && b == "the"
  {
    ExampleKey(a);
    ExampleKey(b);
    WordOrder();
    assert "the" in Counts && "cat" in Counts;
  }

  /** Any largest count and tag cloud of the example's table for n = 2 are 2
      and "cat" then "the", both at size 13. */
  lemma ExampleCloudForced(maxword: int, tags: seq<Tag>)
    requires IsMaxCount(Counts, maxword) && IsTagCloud(Counts, 2, maxword, tags)
    ensures maxword == 2 && tags == Cloud
  {
    ExampleMax(maxword);
    LeftOutBelowShown(maxword, tags);
    ForcedWords(tags[0].word, tags[1].word);
    TwiceShown(tags, 0);
    TwiceShown(tags, 1);
  }

  lemma ExampleMax(maxword: int)
    requires IsMaxCount(Counts, maxword)
    ensures maxword == 2
  {
    var w :| w in Counts && Counts[w] == maxword;
    ExampleKey(w);
    assert "the" in Counts;
  }

  /** Of the example's table, two words are shown, and the one left out is no
      more frequent than either. */
  lemma LeftOutBelowShown(maxword: int, tags: seq<Tag>)
    requires IsTagCloud(Counts, 2, maxword, tags)
    ensures |tags| == 2 && tags[0].word in Counts && tags[1].word in Counts
    ensures CompareTo(tags[0].word, tags[1].word) < 0
    ensures forall w :: w in Counts && w != tags[0].word && w != tags[1].word ==>
      Counts[w] <= Counts[tags[0].word] && Counts[w] <= Counts[tags[1].word]
  {
    assert |Counts| == 3;
    forall w | w in Counts && w != tags[0].word && w != tags[1].word
      ensures Counts[w] <= Counts[tags[0].word] && Counts[w] <= Counts[tags[1].word]
    {
      NotShown(tags, w);
      LeftOutBelow(maxword, tags, 0, w);
      LeftOutBelow(maxword, tags, 1, w);
    }
  }

  /** A word with count 2 is shown at size 13 against a largest count of 2. */
  lemma TwiceShown(tags: seq<Tag>, i: int)
    requires IsTagCloud(Counts, 2, 2, tags) && 0 <= i < |tags|
    requires tags[i].word == "cat" || tags[i].word == "the"
    ensures tags[i] == Tag(13, 2, tags[i].word)
  {
    TopWordSize(2);
  }

  /** And that cloud is one. */
  lemma ExampleCloudHolds()
    ensures IsMaxCount(Counts, 2) && IsTagCloud(Counts, 2, 2, Cloud)
  {
    assert Counts.Keys == {"the", "cat", "dog"};
    assert Counts["the"] == 2;
    assert Cloud[0].word == "cat" && Cloud[1].word == "the";
    assert Shown(Cloud, "cat") && Shown(Cloud, "the");
    WordOrder();
    TopWordSize(2);
  }

  /** The example's separators: both programs split at the space and at no
      letter of the example. */
  lemma ExampleSeparators()
    ensures SplitsAtSpace(SJC.Separators) && SplitsAtSpace(Gen1.Separators)
  {
    Variants.SpaceSeparates();
    Variants.LettersAreNotSeparators('t');
    Variants.LettersAreNotSeparators('h');
    Variants.LettersAreNotSeparators('e');
    Variants.LettersAreNotSeparators('c');
    Variants.LettersAreNotSeparators('a');
    Variants.LettersAreNotSeparators('d');
    Variants.LettersAreNotSeparators('o');
    Variants.LettersAreNotSeparators('g');
  }

  /** The HashMap/ArrayList program prints that cloud for the example. */
  method SJCExample() returns (tags: seq<Tag>)
    ensures tags == Cloud
  {
    var maxword: int;
    tags, maxword := SJC.PrintAll(2, Lines);
    ExampleSeparators();
    ExampleTable(SJC.Separators);
    ExampleCloudForced(maxword, tags);
  }

  /** The Map1L/SortingMachine program prints the same cloud. */
  method Gen1Example() returns (tags: seq<Tag>)
    ensures tags == Cloud
  {
    var maxword: int;
    tags, maxword := Gen1.PrintAll(2, Lines);
    ExampleSeparators();
    ExampleTable(Gen1.Separators);
    ExampleCloudForced(maxword, tags);
  }
}
