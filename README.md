# Tag cloud generator — a Dafny model

Tag-Cloud-Generator holds two Java programs that both build an HTML tag cloud
of the `n` most frequent words of a text file:

- `TagCloudGeneratorSJC` uses `HashMap` and `ArrayList`.
- `TagCloudGenerator`, in `TagCloudGenerator1`, uses the OSU `Map1L` and
  `SortingMachine` components.

The two programs share one pipeline:

1. Lower-case each line.
2. Split it into maximal runs of separator or non-separator characters
   (`nextWordOrSeparator`).
3. Count the word runs in a map.
4. Move the (word, count) pairs into an ordering structure.
5. Take the pairs in descending count order: the first count is `max`, and
   the top `n` pairs go into a second structure (`addToStringListReturnMax` /
   `addToStringMachineReturnMax`).
6. Emit those pairs in ascending word order (`printAll`). Each gets a font size
   from `calcSize`, a step function of its count against the global `max`,
   starting at `MINSIZE = 11` with `SIZES = 38` steps.

The model keeps the programs' imperative shape. Loops are `while` loops with
invariants. The `ArrayList` and `SortingMachine` are classes whose fields the
methods update. Each method is proved against a specification function of its
inputs:

- the runs of a line (`Tokenizer.RunsFrom`);
- the words of the lines (`Frequency.AllWords`);
- the frequency table (`Frequency.Table`, occurrence counts);
- the closed form of the font size (`FontSize.SizeFormula`);
- what a tag cloud is (`TagCloud.IsTagCloud`).

Modules:

- `Ordering` — pairs, the comparators `IntOrder`/`StrOrder`, `String.compareTo`,
  sorted permutations and the order in which `removeFirst` drains a sorting
  machine.
- `Tokenizer` — `nextWordOrSeparator`, its maximal-run contract and the
  partition of a line into runs; the loop that builds the separator set.
- `Frequency` — lower-casing, the words of the input, the frequency table and
  the counting loops shared by both programs (their code is the same).
- `FontSize` — `MINSIZE`, `SIZES` and `calcSize`.
- `Collections` — `ArrayList<Map.Entry>` as `EntryList`; `SortingMachine`.
- `TagCloud` — the emitted `printTags` calls and the proof that the emitted
  sequence is a tag cloud.
- `TagCloudGeneratorSJC`, `TagCloudGenerator` — each program's separator
  string, its fill, select and emit steps and `printAll`.
- `Variants` — what the different separator strings change.
- `WorkedExample` — one three-line input taken through both programs' `printAll`.

File reading and HTML writing are replaced as follows:

- the input file is a sequence of lines;
- the HTML writer's `printTags(size, count, word)` calls are a sequence of
  `Tag(size, count, word)`.

`PrintAll` in each program module returns that sequence and the `maxword` it
used. Its contract: `maxword` is the largest count of the table, and the tags
form a tag cloud of the table. That means `min(n, number of distinct words)`
tags, each a word of the table with its count and its `calcSize`, in strictly
ascending word order, and no word left out is more frequent than a word shown.

### Where the documented intent and the code differ

The model follows the code in each of these cases:

- Top-n selection as written needs more than `n` distinct words. With `n` or
  fewer, both programs remove from an empty collection. See "## Findings".
  `PrintAll` uses the corrected selection.
- The most frequent word does not always get the largest font size. The size
  is `11 + min(38, count / (maxword / 38 + 1))`, so with `maxword = 2` the
  largest word gets size 13 (`FontSize.TopWordSize`, and the worked example).
- Ties in count at the top-n boundary are not broken by word. They follow
  `HashMap` iteration and sort order, or `removeAny` and `removeFirst` order.
  The model leaves that order open: any order consistent with the comparator.
- The apostrophe and the backtick are separators only in
  `TagCloudGeneratorSJC`. So `don't` is one word in one program and two in the
  other.

## Model

| member | source | states |
|---|---|---|
| Ordering.CompareIsTotalPreorder | TagCloudGeneratorSJC/src/TagCloudGeneratorSJC.java:49-69 | IntOrder and StrOrder are reflexive, total and transitive. IntOrder puts a before b exactly when a's count is at least b's. StrOrder compares two pairs as 0 exactly when their words are equal. |
| Ordering.IntegerCompareTo | TagCloudGeneratorSJC/src/TagCloudGeneratorSJC.java:54 | Integer.compareTo returns -1, 0 or 1 with the sign of x - y: negative exactly when x < y, zero exactly when x == y, positive exactly when x > y |
| Ordering.CompareTo | TagCloudGeneratorSJC/src/TagCloudGeneratorSJC.java:67 | String.compareTo is 0 if and only if the strings are equal |
| Ordering.Compare | TagCloudGeneratorSJC/src/TagCloudGeneratorSJC.java:49-69 | IntOrder compares the second count with the first (o2 against o1), so it is at most 0 exactly when the first count is at least the second and 0 exactly on equal counts; StrOrder compares the keys and is 0 exactly on equal words (the same comparators: TagCloudGenerator.java lines 46-65) |
| Ordering.CompareToAntisymmetric | TagCloudGeneratorSJC/src/TagCloudGeneratorSJC.java:67 | swapping the arguments of String.compareTo negates the result |
| Ordering.CompareToTransitive | TagCloudGeneratorSJC/src/TagCloudGeneratorSJC.java:67 | String.compareTo's "at most" is transitive |
| Ordering.SortBy | TagCloudGeneratorSJC/src/TagCloudGeneratorSJC.java:297 | the result is sorted by the comparator and is a permutation of the input (what List.sort promises) |
| Ordering.DescendingCounts | TagCloudGeneratorSJC/src/TagCloudGeneratorSJC.java:297 | after sorting by IntOrder, counts do not increase along the list |
| Ordering.FirstExists | TagCloudGenerator1/src/TagCloudGenerator.java:277 | every non-empty collection has an element no other precedes, so removeFirst's result exists |
| Ordering.ExtractStep | TagCloudGenerator1/src/TagCloudGenerator.java:282 | one more removeFirst extends the drained sequence and leaves exactly the rest of the original contents |
| Ordering.ExtractionContained | TagCloudGenerator1/src/TagCloudGenerator.java:280-284 | everything drained with removeFirst came from the machine's original contents |
| Ordering.ExtractedFirst | TagCloudGenerator1/src/TagCloudGenerator.java:282 | the i-th drained pair precedes everything still in the machine when it was removed |
| Ordering.ExtractionSorted | TagCloudGenerator1/src/TagCloudGenerator.java:319-328 | pairs drained with removeFirst come out sorted by the machine's comparator, and each precedes every pair left behind |
| Tokenizer.NextWordOrSeparator | TagCloudGeneratorSJC/src/TagCloudGeneratorSJC.java:83-108 | for 0 <= position < \|text\| the result is a non-empty slice text[position..position+\|r\|] whose characters all share text[position]'s separator membership, and it is maximal: it reaches the end or the next character is of the other class (the same code: TagCloudGenerator.java lines 80-104) |
| Tokenizer.RunUnique | TagCloudGeneratorSJC/src/TagCloudGeneratorSJC.java:83-108 | at most one string meets that contract, so the tokenizer's result is determined by text and position |
| Tokenizer.RunIsRunAt | TagCloudGeneratorSJC/src/TagCloudGeneratorSJC.java:94-105 | the reference run Run(text, position) meets the tokenizer's contract |
| Tokenizer.RunsPartition | TagCloudGeneratorSJC/src/TagCloudGeneratorSJC.java:248-257 | tokenizing from 0 and advancing by each run's length ends, the runs concatenate to the line, each is non-empty and homogeneous, and neighbouring runs alternate between separators and word characters |
| Tokenizer.RunsFromStep | TagCloudGeneratorSJC/src/TagCloudGeneratorSJC.java:250-256 | after one tokenizer call the remaining runs are the runs from position + \|word\| |
| Tokenizer.BuildSeparators | TagCloudGeneratorSJC/src/TagCloudGeneratorSJC.java:237-240 | the set holds exactly the characters of the separator string |
| Frequency.LowerLine | TagCloudGeneratorSJC/src/TagCloudGeneratorSJC.java:247 | lower-casing keeps the length, leaves no ASCII capital letter, leaves every other character where it was, and changes nothing in a string with no capital letter |
| Frequency.CountWords | TagCloudGeneratorSJC/src/TagCloudGeneratorSJC.java:245-259 | the counting loop over all lines yields the frequency table: each word with its number of occurrences as a word run of the lower-cased lines |
| Frequency.CountLine | TagCloudGeneratorSJC/src/TagCloudGeneratorSJC.java:247-257 | the inner loop over one line adds that line's words to the running count |
| Frequency.CountRun | TagCloudGeneratorSJC/src/TagCloudGeneratorSJC.java:251-255 | a run already in the map is incremented, a run starting with a non-separator is inserted with 1, a separator run changes nothing; the map stays the count of the words seen and keys stay separator-free |
| Frequency.LineStep | TagCloudGeneratorSJC/src/TagCloudGeneratorSJC.java:250-256 | advancing position by the run's length keeps the runs seen plus the runs to come equal to the line's runs |
| Frequency.OccurrencesSnoc | TagCloudGeneratorSJC/src/TagCloudGeneratorSJC.java:251-254 | one more word increments its count, or adds it with count 1 when it is new |
| Frequency.TallyIsOccurrences | TagCloudGeneratorSJC/src/TagCloudGeneratorSJC.java:251-254 | the increment-or-insert fold equals the occurrence counts of the words |
| Frequency.AllWordsAreWords | TagCloudGeneratorSJC/src/TagCloudGeneratorSJC.java:247-253 | every counted word is non-empty, contains no separator and has no capital letter, being a piece of a lower-cased line |
| Frequency.TableInvariant | TagCloudGeneratorSJC/src/TagCloudGeneratorSJC.java:247-254 | every key of the table is non-empty, separator-free and its own lower-case form, and every count is at least 1 |
| Frequency.SeparatorRunNeverKey | TagCloudGeneratorSJC/src/TagCloudGeneratorSJC.java:251-253 | a run starting with a separator is never a key, so the containsKey branch never fires for it |
| Frequency.PairsCard | TagCloudGeneratorSJC/src/TagCloudGeneratorSJC.java:262-269 | a map has exactly one pair per key |
| Frequency.DrainStep | TagCloudGenerator1/src/TagCloudGenerator.java:244-247 | removing one key moves exactly its pair from the map to the pairs taken, and the map shrinks |
| Frequency.DistinctWords | TagCloudGeneratorSJC/src/TagCloudGeneratorSJC.java:262 | pairs taken from a map never repeat a word |
| FontSize.CalcSize | TagCloudGeneratorSJC/src/TagCloudGeneratorSJC.java:190-212 | for value > 0 and maxword > 0 the loop returns 11 + min(38, value / (maxword / 38 + 1)); n plays no part (the same code: TagCloudGenerator.java lines 171-193) |
| FontSize.SizeBounds | TagCloudGeneratorSJC/src/TagCloudGeneratorSJC.java:195-209 | for 0 < value <= maxword the size lies in [11, 48] |
| FontSize.SizeMonotone | TagCloudGeneratorSJC/src/TagCloudGeneratorSJC.java:195-209 | for a fixed maxword the size does not decrease as the count grows |
| FontSize.TopWordSize | TagCloudGeneratorSJC/src/TagCloudGeneratorSJC.java:195-209 | for 0 < maxword < 38 the most frequent word gets size 11 + maxword, not the largest size; 13 for maxword = 2 |
| Collections.EntryList.constructor | TagCloudGeneratorSJC/src/TagCloudGeneratorSJC.java:328-329 | a new ArrayList is empty |
| Collections.EntryList.Size | TagCloudGeneratorSJC/src/TagCloudGeneratorSJC.java:292 | size is 0 exactly when the list is empty |
| Collections.EntryList.Add | TagCloudGeneratorSJC/src/TagCloudGeneratorSJC.java:268 | add appends at the end |
| Collections.EntryList.Remove | TagCloudGeneratorSJC/src/TagCloudGeneratorSJC.java:298 | remove(i) returns the i-th element and closes the gap |
| Collections.EntryList.Sort | TagCloudGeneratorSJC/src/TagCloudGeneratorSJC.java:297 | sort leaves a permutation of the list sorted by the comparator |
| Collections.SortingMachine.constructor | TagCloudGenerator1/src/TagCloudGenerator.java:303-304 | a new machine is empty, in insertion mode, with the given comparator |
| Collections.SortingMachine.Size | TagCloudGenerator1/src/TagCloudGenerator.java:271 | size is 0 exactly when the machine holds nothing |
| Collections.SortingMachine.IsInInsertionMode | TagCloudGenerator1/src/TagCloudGenerator.java:272 | the query returns the mode flag; it has no contract beyond that definition |
| Collections.SortingMachine.Add | TagCloudGenerator1/src/TagCloudGenerator.java:246 | add, allowed only in insertion mode, adds one pair |
| Collections.SortingMachine.ChangeToExtractionMode | TagCloudGenerator1/src/TagCloudGenerator.java:314 | allowed only in insertion mode; switches to extraction mode and leaves the contents alone |
| Collections.SortingMachine.RemoveFirst | TagCloudGenerator1/src/TagCloudGenerator.java:277 | allowed only in extraction mode on a non-empty machine; removes and returns a pair that no other pair precedes |
| TagCloud.EmitsAll | TagCloudGeneratorSJC/src/TagCloudGeneratorSJC.java:352-358 | the i-th printTags call is the call for the i-th pair drained |
| TagCloud.SortedHeadIsFirst | TagCloudGeneratorSJC/src/TagCloudGeneratorSJC.java:297-298 | the head of a sorted list precedes every element |
| TagCloud.MaxFromFirst | TagCloudGeneratorSJC/src/TagCloudGeneratorSJC.java:298-299 | the count of a pair that comes first under IntOrder is the largest count of the table |
| TagCloud.TopOfSorted | TagCloudGeneratorSJC/src/TagCloudGeneratorSJC.java:296-305 | the first min(n, \|pairs\|) pairs sorted by IntOrder are a top-n selection, and the first count is the maximum |
| TagCloud.TopOfExtraction | TagCloudGenerator1/src/TagCloudGenerator.java:277-283 | the first min(n, \|pairs\|) pairs drained from an IntOrder machine are a top-n selection: no pair left behind has a larger count; the first count is the maximum |
| TagCloud.EmptyTable | TagCloudGeneratorSJC/src/TagCloudGeneratorSJC.java:342-345 | with no words maxword stays 0 and nothing is selected |
| TagCloud.CloudFromSelection | TagCloudGeneratorSJC/src/TagCloudGeneratorSJC.java:347-358 | emitting a top-n selection in ascending word order gives a tag cloud: the right number of entries, words of the table with their counts and sizes, strictly ascending words, none left out more frequent than one shown |
| TagCloud.SelectedCounts | TagCloudGeneratorSJC/src/TagCloudGeneratorSJC.java:355 | every selected count lies in (0, maxword], so calcSize's assertions hold |
| TagCloud.PrintTagsPreconditions | TagCloudGeneratorSJC/src/TagCloudGeneratorSJC.java:151-156 | every emitted call has a non-empty word, a positive count and a size in [11, 48], so printTags' assertions hold |
| TagCloudGeneratorSJC.AddToIntList | TagCloudGeneratorSJC/src/TagCloudGeneratorSJC.java:227-273 | sInts keeps what it held and gains exactly one pair per distinct word of the lines, with its count |
| TagCloudGeneratorSJC.AddEntries | TagCloudGeneratorSJC/src/TagCloudGeneratorSJC.java:261-269 | the appended pairs are exactly the map's entries, in some order |
| TagCloudGeneratorSJC.AddToStringListReturnMax | TagCloudGeneratorSJC/src/TagCloudGeneratorSJC.java:289-308 | as written. It sorts by IntOrder into a permutation of sInts. It succeeds exactly when there are more than n pairs; then max is the first count, sStrs holds the first n pairs and sInts the ones after the (n+1)-th. Otherwise it removes from an empty list after moving every pair to sStrs. |
| TagCloudGeneratorSJC.AsWrittenAgrees | TagCloudGeneratorSJC/src/TagCloudGeneratorSJC.java:296-305 | when the as-written selection succeeds (more than n pairs), the first n pairs it leaves in sStrs are the pairs SelectTop moves for the same sorted list: a top-n selection of the table whose first count is the largest |
| TagCloudGeneratorSJC.OneWordSelectionFails | TagCloudGeneratorSJC/src/TagCloudGeneratorSJC.java:302-305 | one pair and n = 1 reach remove(0) on an empty list |
| TagCloudGeneratorSJC.SelectTop | TagCloudGeneratorSJC/src/TagCloudGeneratorSJC.java:296-305 | corrected selection: sorts by IntOrder, moves the first min(n, \|sInts\|) pairs to sStrs, leaves the rest, and returns the first count |
| TagCloudGeneratorSJC.SelectWords | TagCloudGeneratorSJC/src/TagCloudGeneratorSJC.java:327-345 | with the corrected selection, maxword is the table's largest count (0 when empty) and sortedStrs holds a top-n selection of the table's pairs, each with a count in (0, maxword] |
| TagCloudGeneratorSJC.EmitTags | TagCloudGeneratorSJC/src/TagCloudGeneratorSJC.java:352-358 | n rounds emit the first min(n, \|sortedStrs\|) pairs in list order with their sizes and remove them |
| TagCloudGeneratorSJC.PrintAll | TagCloudGeneratorSJC/src/TagCloudGeneratorSJC.java:322-362 | with the corrected selection, maxword is the largest count of the table and the emitted calls form a tag cloud of the top n words in ascending word order |
| TagCloudGenerator.AddToIntMachine | TagCloudGenerator1/src/TagCloudGenerator.java:209-251 | requires insertion mode; s stays in insertion mode and gains exactly one pair per distinct word of the lines, with its count |
| TagCloudGenerator.AddPairs | TagCloudGenerator1/src/TagCloudGenerator.java:243-247 | the removeAny loop moves exactly the map's pairs into s, in some order |
| TagCloudGenerator.AddToStringMachineReturnMax | TagCloudGenerator1/src/TagCloudGenerator.java:268-287 | as written. The removed pairs come out in IntOrder extraction order. It succeeds exactly when there are more than n pairs; then n+1 pairs were removed, max is the first count and sStrs holds the first n. Otherwise removeFirst is reached on an empty machine after every pair went to sStrs. |
| TagCloudGenerator.AsWrittenAgrees | TagCloudGenerator1/src/TagCloudGenerator.java:276-284 | when the as-written selection succeeds (n+1 pairs drawn), the first n drawn pairs, which it moved into sStrs, are drawn as SelectTop draws them: an IntOrder extraction order of min(n, \|pairs\|) pairs, a top-n selection whose first count is the largest |
| TagCloudGenerator.OneWordSelectionFails | TagCloudGenerator1/src/TagCloudGenerator.java:280-284 | one pair and n = 1 reach removeFirst on an empty machine |
| TagCloudGenerator.SelectTop | TagCloudGenerator1/src/TagCloudGenerator.java:276-284 | corrected selection: removes the first min(n, \|sInts\|) pairs in IntOrder extraction order into sStrs and returns the first count |
| TagCloudGenerator.SelectWords | TagCloudGenerator1/src/TagCloudGenerator.java:302-317 | with the corrected selection, maxword is the table's largest count (0 when empty) and sortedStrs, still in insertion mode, holds a top-n selection with counts in (0, maxword] |
| TagCloudGenerator.EmitTags | TagCloudGenerator1/src/TagCloudGenerator.java:319-328 | n rounds drain min(n, \|sortedStrs\|) pairs in StrOrder extraction order and emit them with their sizes; the machine leaves insertion mode at the first removal and never returns to it |
| TagCloudGenerator.TakeFirst | TagCloudGenerator1/src/TagCloudGenerator.java:321-324 | switches to extraction mode only if still in insertion mode, then removes a first pair |
| TagCloudGenerator.PrintAll | TagCloudGenerator1/src/TagCloudGenerator.java:296-331 | with the corrected selection, maxword is the largest count of the table and the emitted calls form a tag cloud of the top n words in ascending word order |
| Variants.SeparatorSetsDiffer | TagCloudGenerator1/src/TagCloudGenerator.java:30 | the HashMap program's separators are the other program's plus the apostrophe and the backtick, which the other program does not have |
| Variants.LettersAreNotSeparators | TagCloudGeneratorSJC/src/TagCloudGeneratorSJC.java:35 | no lower-case ASCII letter is a separator in either program |
| Variants.SplitAtApostrophe | TagCloudGeneratorSJC/src/TagCloudGeneratorSJC.java:247-257 | where the apostrophe separates, the line "don't" yields the words "don" and "t" |
| Variants.WholeContraction | TagCloudGenerator1/src/TagCloudGenerator.java:230-240 | where it does not, the line "don't" yields the single word "don't" |
| Variants.ContractionWords | TagCloudGenerator1/src/TagCloudGenerator.java:30 | "don't" is the two words "don" and "t" in TagCloudGeneratorSJC and the one word "don't" in TagCloudGenerator |
| Variants.SpaceSeparates | TagCloudGenerator1/src/TagCloudGenerator.java:30 | the space is a separator in both programs |
| WorkedExample.ExampleTable | TagCloudGeneratorSJC/src/TagCloudGeneratorSJC.java:245-259 | the lines "The cat", "the CAT", "dog" have the table the := 2, cat := 2, dog := 1, for any separator set that holds the space and none of their letters |
| WorkedExample.ExampleCloudForced | TagCloudGeneratorSJC/src/TagCloudGeneratorSJC.java:322-362 | for that table and n = 2, any largest count and tag cloud are 2 and exactly the calls (13, 2, "cat"), (13, 2, "the"), in that order |
| WorkedExample.ExampleCloudHolds | TagCloudGeneratorSJC/src/TagCloudGeneratorSJC.java:322-362 | and those calls are a tag cloud of that table, with largest count 2 |
| WorkedExample.SJCExample | TagCloudGeneratorSJC/src/TagCloudGeneratorSJC.java:322-362 | printAll of TagCloudGeneratorSJC, with n = 2 and the corrected selection, emits exactly those two calls for those lines |
| WorkedExample.Gen1Example | TagCloudGenerator1/src/TagCloudGenerator.java:296-331 | printAll of TagCloudGenerator, with n = 2 and the corrected selection, emits exactly the same two calls |

## Left out

- `main` in both programs is left out. It is console prompting, retry loops for the file names and `n`, and opening and closing streams, all I/O.
- The HTML text of `printHeader`, `printTags` and `printFooter` is left out; only the sequence of `printTags(size, count, word)` calls is modelled. The assertions `printTags` makes are proved by `TagCloud.PrintTagsPreconditions`.
- `SimpleReader1L` and file access are replaced by a sequence of lines. The file-name assertions (`file.length() > 0`, `!outFile.isEmpty()`) have nothing to check once there is no file name.
- `String.toLowerCase` is modelled as ASCII lower-casing, one character at a time: Java's version depends on Unicode and the locale and can change a string's length.
- `String.compareTo` is modelled on Dafny characters, one per Unicode scalar value. Java compares UTF-16 code units, so the two orders can differ for characters outside the Basic Multilingual Plane.
- The internals of `HashMap`, `ArrayList.sort` (TimSort), `Map1L`, `Set1L` and `SortingMachine1L` are left out. They are given by the contracts the programs rely on:
  - `sort` leaves a sorted permutation;
  - `removeFirst` removes some pair no other precedes;
  - `removeAny` and the `HashMap` iteration take the pairs in some order.

  So the order among pairs with equal counts is left open, as the library code leaves it.
- Java `int` overflow is not modelled: counts and `i * increment` are unbounded integers.
- Java `assert` statements are modelled as preconditions, not as run-time `AssertionError`s.
- `printAll`'s requirement `n > 0` is a precondition of `PrintAll`; it is the assertion `printHeader` makes before any word is emitted.
- TagCloudGeneratorSJC.AddToStringListReturnMax: when `remove(0)` hits an empty list it returns `RemovedFromEmpty` instead of throwing `IndexOutOfBoundsException`, and states what `sStrs` and `sInts` hold at that point.
- TagCloudGenerator.AddToStringMachineReturnMax: when `removeFirst` is reached on an empty machine, whose precondition is then violated, it returns `RemovedFromEmpty` and states what the machines hold at that point.
- Aliasing is left out: the two collections passed to the selection methods must be distinct objects, as they are at every call site.

## Findings

| source | as written | input that shows it | evidently intended | confidence | as-written member | corrected member |
|---|---|---|---|---|---|---|
| TagCloudGeneratorSJC/src/TagCloudGeneratorSJC.java:302-305 | each of the n rounds adds the current pair to sStrs and then calls sInts.remove(0), so n+1 pairs are removed in all | a file with one distinct word, "cat", and n = 1 (OneWordSelectionFails): the second remove(0) is on an empty list | move min(n, \|sInts\|) pairs, so that a file with n or fewer distinct words shows them all; the documented requirement is only that sInts is non-empty and sStrs empty | not executed | TagCloudGeneratorSJC.AddToStringListReturnMax | TagCloudGeneratorSJC.SelectTop |
| TagCloudGenerator1/src/TagCloudGenerator.java:280-284 | each of the n rounds adds the current pair to sStrs and then calls sInts.removeFirst(), so n+1 pairs are removed in all | a file with one distinct word, "cat", and n = 1 (OneWordSelectionFails): the second removeFirst is on an empty machine | draw min(n, \|sInts\|) pairs; the assertions require only that sInts is non-empty and in extraction mode and sStrs empty and in insertion mode | not executed | TagCloudGenerator.AddToStringMachineReturnMax | TagCloudGenerator.SelectTop |
