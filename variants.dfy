/** How the two programs' separator sets change what counts as a word. */
module Variants {
  import opened Tokenizer
  import opened Frequency
  import SJC = TagCloudGeneratorSJC
  import Gen1 = TagCloudGenerator

  /** The apostrophe and the backtick separate words only in the
      HashMap/ArrayList program; the other separators are shared. */
  lemma SeparatorSetsDiffer()
    ensures SJC.Separators == Gen1.Separators + {'\'', '`'}
    ensures '\'' !in Gen1.Separators && '`' !in Gen1.Separators
  {
    var common := Gen1.SeparatorsStr;
    assert SJC.SeparatorsStr == common + "'`";
    forall c ensures c in SJC.Separators <==> c in Gen1.Separators || c == '\'' || c == '`' {
      assert c in common + "'`" <==> c in common || c in "'`";
    }
    NotInCommon('\'');
    NotInCommon('`');
  }

  /** A character that is not one of the shared separators. */
  lemma NotInCommon(c: char)
    requires c == '\'' || c == '`' || 'a' <= c <= 'z'
    ensures c !in Gen1.Separators
  {
    var a, b, d, e := "/\t\n\r.,&", "!? []{}", "|-=+@#$", "%*\"()";
    assert Gen1.SeparatorsStr == a + b + d + e;
    assert c !in a && c !in b && c !in d && c !in e;
  }

  /** The space separates words in both programs. */
  lemma SpaceSeparates()
    ensures ' ' in Gen1.Separators && ' ' in SJC.Separators
  {
    var a, b, d, e := "/\t\n\r.,&", "!? []{}", "|-=+@#$", "%*\"()";
    assert Gen1.SeparatorsStr == a + b + d + e;
    assert ' ' in b;
    SeparatorSetsDiffer();
  }

  /** Lower-case ASCII letters separate nothing in either program. */
  lemma LettersAreNotSeparators(c: char)
    requires 'a' <= c <= 'z'
    ensures c !in Gen1.Separators && c !in SJC.Separators
  {
    SeparatorSetsDiffer();
    NotInCommon(c);
  }

  /** Where the apostrophe separates, "don't" is the words "don" and "t". */
  lemma SplitAtApostrophe(seps: set<char>)
    requires '\'' in seps && 'd' !in seps && 'o' !in seps && 'n' !in seps && 't' !in seps
    ensures LineWords(seps, "don't") == ["don", "t"]
  {
    assert LowerLine("don't") == "don't";
    ApostropheRuns(seps);
    var runs := ["don", "'", "t"];
    assert ["don"][..0] == [];
    assert WordsOf(seps, ["don"]) == ["don"];
    assert ["don", "'"][..1] == ["don"];
    assert WordsOf(seps, ["don", "'"]) == ["don"];
    assert runs[..2] == ["don", "'"];
  }

  lemma ApostropheRuns(seps: set<char>)
    requires '\'' in seps && 'd' !in seps && 'o' !in seps && 'n' !in seps && 't' !in seps
    ensures RunsFrom(seps, "don't", 0) == ["don", "'", "t"]
  {
    var s := "don't";
    assert s[0..3] == "don" && s[3..4] == "'" && s[4..5] == "t";
    RunsFromStep(seps, s, 0, "don");
    RunsFromStep(seps, s, 3, "'");
    RunsFromStep(seps, s, 4, "t");
  }

  /** Where it does not, "don't" is one word. */
  lemma WholeContraction(seps: set<char>)
    requires '\'' !in seps && 'd' !in seps && 'o' !in seps && 'n' !in seps && 't' !in seps
    ensures LineWords(seps, "don't") == ["don't"]
  {
    var s := "don't";
    assert LowerLine(s) == s;
    assert s[0..5] == s;
    RunsFromStep(seps, s, 0, s);
    assert RunsFrom(seps, s, 0) == [s];
    assert [s][..0] == [];
    assert WordsOf(seps, [s]) == [s];
  }

  /** So "don't" counts as the two words "don" and "t" in the HashMap/ArrayList
      program and as the single word "don't" in the Map1L/SortingMachine one. */
  lemma ContractionWords()
    ensures LineWords(SJC.Separators, "don't") == ["don", "t"]
    ensures LineWords(Gen1.Separators, "don't") == ["don't"]
  {
    SeparatorSetsDiffer();
    LettersAreNotSeparators('d');
    LettersAreNotSeparators('o');
    LettersAreNotSeparators('n');
    LettersAreNotSeparators('t');
    SplitAtApostrophe(SJC.Separators);
    WholeContraction(Gen1.Separators);
  }
}
