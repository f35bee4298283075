# Advent of Code 2023, days 1 to 7, in Dafny

This project models the puzzle logic of a set of Kotlin scripts for the first seven days of Advent
of Code 2023, and proves what each script computes. File reading and printing are stripped off:
every script becomes a function or method over the input lines, given as a `seq<string>`. Each
place where the Kotlin code would throw on malformed input (`toInt`, `!!`, an index past the end)
becomes an `Option` result that is `None` there.

- `wrappers.dfy` (module `Wrappers`): `Option`, and `MapAll`, the `map` of a conversion that may fail.
- `text.dfy` (module `Text`): the Kotlin string functions the scripts use. These are `split`,
  `split(Regex("\\s+"))`, `trim`, `indexOf`, `lastIndexOf`, `replace`, `toInt` and `toLong` (with
  their 32- and 64-bit ranges), `isDigit` and `isWhitespace`, with round-trip lemmas for split/join
  and for printing and parsing numbers.
- `seqs.dfy` (module `Seqs`): `count`, `sum`, `sumOf`, `distinct`, and insertion-ordered maps with
  `put` and `associate` (a `LinkedHashMap` as a list of entries).
- `ordering.dfy` (module `Ordering`): `Integer.compare`, `maxWith`, `toSortedMap` (a tree map built
  by one `put` per entry, where a key that ties with a present key keeps that key and takes the new
  value), and position-weighted sums.
- `day1.dfy`: the calibration value of a line, which is ten times its first digit plus its last one.
  A digit may be a character or a number word from "one" to "nine". The leftmost word is found with
  `indexOf` and the rightmost with `lastIndexOf`. This `map`/`minByOrNull`/`maxByOrNull` pipeline is
  proved equal to a reference reading: the digit spelled at the leftmost position that spells one,
  and the digit at the rightmost.
- `day2.dfy`: the cube games. Three methods mirror the two nested `forEach` loops with their
  accumulators and flag. They are proved equal to functions whose meaning is proved: a game is
  possible exactly when no entry exceeds its colour's limit, and the power is the product of
  per-colour maxima. `Day2/Day2_Exercise/src/main/kotlin/Main.kt` has the same bodies line for line
  as `AdventOfCode_Kotlin/src/main/kotlin/Day2.kt`, so module `Day2` models both.
- `day3.dfy`: the engine schematic.
  - The column scanner with its digit buffer is a method, proved to emit exactly the maximal digit
    runs (with their value and columns) and the symbols (with their widened range), in column order.
  - Range overlap, `groupBy`, the three-row context, part 1 (numbers next to a symbol) and part 2
    (gears with exactly two numbers) are functions, proved to mean adjacency on the grid.
- `day4.dfy`: the scratchcards.
  - Card parsing and matches by set intersection.
  - Part 1 is a method summing the doubling scores.
  - Part 2 is a method over the `ArrayDeque` work queue. It is proved equal to the cascade of copies
    that the script's doc comment describes: each card counts itself plus the cascades of the copies
    it wins.
- `day5.dfy`: seed maps. `applyMaps` is a method with the nested loops and the `break`. The section
  parser is also a method. Part 1 is the least location.
- `day6.dfy`: the boat races. The counting loop is a method, proved to count the winning hold
  durations. The two parsers and the product follow.
- `day7.dfy`: Camel Cards.
  - Card strengths, and hand categories from the card counts (proved to follow the puzzle's table
    of count profiles).
  - The joker substitution `improve` (proved to pick a best substitution).
  - The comparator chain (proved lexicographic, transitive and tie-free on real hands).
  - The winnings (proved to give every bid its rank). Each kept hand is weighted by its own bid,
    looked up in the map the sorted map was built from.

## Model

| member | source | states |
|---|---|---|
| Text.ParseInteger | AdventOfCode_Kotlin/src/main/kotlin/Day2.kt:19 | A string parses exactly when it is a non-empty run of digits, optionally signed. Its value is the decimal value, negated after '-' and unchanged after '+'. |
| Text.ToInt | AdventOfCode_Kotlin/src/main/kotlin/Day2.kt:19 | `toInt` succeeds exactly when the string is an integer numeral within the 32-bit range, with that value. |
| Text.ToLong | AdventOfCode_Kotlin/src/main/kotlin/Day7.kt:93 | `toLong` succeeds exactly when the string is an integer numeral within the 64-bit range, with that value. |
| Text.DigitToInt | AdventOfCode_Kotlin/src/main/kotlin/Day7.kt:16 | `c.toString().toInt()` of a digit character is the digit's value. |
| Text.TwoDigitsToInt | Day1/Day1_Exercise/src/main/kotlin/Main.kt:60 | Two digit characters read as ten times the first plus the second. |
| Text.IndexOf | Day1/Day1_Exercise/src/main/kotlin/Main.kt:42 | `indexOf` gives the first position where the word occurs, or none when it occurs nowhere. |
| Text.LastIndexOf | Day1/Day1_Exercise/src/main/kotlin/Main.kt:51 | `lastIndexOf` gives the last position where the word occurs, or none when it occurs nowhere. |
| Text.SplitJoin | AdventOfCode_Kotlin/src/main/kotlin/Day2.kt:18 | Splitting loses nothing: the pieces joined with the delimiter give the string back. |
| Text.SplitPiecesFree | AdventOfCode_Kotlin/src/main/kotlin/Day2.kt:18 | No piece of a split holds the delimiter. |
| Text.SplitJoinInverse | AdventOfCode_Kotlin/src/main/kotlin/Day2.kt:20 | Pieces free of a one-character delimiter, joined and split again, come back unchanged. |
| Text.SplitAtFirst | AdventOfCode_Kotlin/src/main/kotlin/Day5.kt:21 | Two pieces free of the delimiter's first character, joined by the delimiter, split back into the two. |
| Text.Split | AdventOfCode_Kotlin/src/main/kotlin/Day2.kt:18 | `split` on a non-empty delimiter gives at least one piece. `Text.SplitJoin`, `Text.SplitPiecesFree` and `Text.SplitJoinInverse` state what the pieces are. |
| Text.SplitOnSpaceRuns | AdventOfCode_Kotlin/src/main/kotlin/Day6.kt:15 | Splitting on whitespace runs gives at least one piece, and no piece holds whitespace. The first piece is the text before the first whitespace, and there is exactly one piece when there is no whitespace. |
| Text.SplitOnSpaceRunsCons | AdventOfCode_Kotlin/src/main/kotlin/Day6.kt:15 | A whitespace-free piece, a run of whitespace of any length and a rest that does not start with whitespace split into the piece followed by the pieces of the rest. An empty piece gives the empty first piece of a string that starts with whitespace. |
| Text.TrimFacts | AdventOfCode_Kotlin/src/main/kotlin/Day5.kt:5 | `trim` keeps the middle slice that starts and ends with non-whitespace, and drops only whitespace. |
| Text.TrimNoOp | AdventOfCode_Kotlin/src/main/kotlin/Day5.kt:5 | A string that begins and ends with non-whitespace is its own trim. |
| Text.Trim | AdventOfCode_Kotlin/src/main/kotlin/Day5.kt:5 | `trim`. `Text.TrimFacts` and `Text.TrimNoOp` state what it keeps. |
| Text.ReplaceChar | AdventOfCode_Kotlin/src/main/kotlin/Day7.kt:64 | `replace(from, to)` keeps the length and changes exactly the occurrences of `from`. |
| Text.ReplaceCharIdentity | AdventOfCode_Kotlin/src/main/kotlin/Day7.kt:64 | Replacing a character by itself, or one that does not occur, changes nothing. |
| Text.RemoveChar | AdventOfCode_Kotlin/src/main/kotlin/Day6.kt:33 | `replace(" ", "")` leaves no space, never lengthens the string, and keeps every other character as often as it occurs. |
| Text.RemoveCharAppend | AdventOfCode_Kotlin/src/main/kotlin/Day6.kt:33 | Deleting a character from two strings one after the other deletes it from each, so the other characters keep their order. |
| Text.RemoveCharAbsent | AdventOfCode_Kotlin/src/main/kotlin/Day6.kt:33 | Deleting a character that does not occur changes nothing. |
| Text.RemoveCharOnly | AdventOfCode_Kotlin/src/main/kotlin/Day6.kt:33 | A string made only of the deleted character disappears. |
| Text.NatToStringValue | AdventOfCode_Kotlin/src/main/kotlin/Day2.kt:19 | The printed digits of a number read back as that number. |
| Text.NatToStringToInt | AdventOfCode_Kotlin/src/main/kotlin/Day2.kt:19 | A printed non-negative 32-bit number reads back with `toInt`. |
| Text.NatToStringToLong | AdventOfCode_Kotlin/src/main/kotlin/Day5.kt:21 | A printed non-negative 64-bit number reads back with `toLong`. |
| Text.NumeralsToInt | AdventOfCode_Kotlin/src/main/kotlin/Day4.kt:17 | A list of printed 32-bit numbers converts back with `map { it.toInt() }`. |
| Text.NumeralsToLong | AdventOfCode_Kotlin/src/main/kotlin/Day5.kt:21 | A list of printed 64-bit numbers converts back with `map { it.toLong() }`. |
| Wrappers.MapAllPerElement | AdventOfCode_Kotlin/src/main/kotlin/Day6.kt:15 | A `map` of a conversion that may throw succeeds exactly when every element converts, and then holds each element's result in order. |
| Wrappers.MapAllPrefixFails | AdventOfCode_Kotlin/src/main/kotlin/Day6.kt:15 | Once an element fails, the whole `map` fails. |
| Wrappers.MapAll | AdventOfCode_Kotlin/src/main/kotlin/Day6.kt:15 | The `map` of a conversion that may throw. `Wrappers.MapAllPerElement` states its result. |
| Seqs.CountIsMultiplicity | AdventOfCode_Kotlin/src/main/kotlin/Day7.kt:25 | The count of an element is its multiplicity in the list. |
| Seqs.Count | AdventOfCode_Kotlin/src/main/kotlin/Day7.kt:26 | `count`. `Seqs.CountIsMultiplicity` states it is the multiplicity. |
| Seqs.Distinct | AdventOfCode_Kotlin/src/main/kotlin/Day7.kt:63 | `distinct()` has no repetitions, holds exactly the elements of the list, and is no longer than it. It lists them in order of first appearance: one comes before another exactly when it first occurs earlier. |
| Seqs.FirstIndex | AdventOfCode_Kotlin/src/main/kotlin/Day7.kt:63 | The first position of an element that occurs: it holds the element, and no earlier position does. |
| Seqs.SumAppend | Day1/Day1_Exercise/src/main/kotlin/Main.kt:63 | `sum()` distributes over concatenation. |
| Seqs.SumOfPermutation | AdventOfCode_Kotlin/src/main/kotlin/Day3.kt:120 | A `sumOf` does not depend on the order of the elements. |
| Seqs.Sum | Day1/Day1_Exercise/src/main/kotlin/Main.kt:63 | `sum()`. `Seqs.SumAppend` states that it distributes over concatenation. |
| Seqs.SumOf | AdventOfCode_Kotlin/src/main/kotlin/Day3.kt:120 | `sumOf`. `Seqs.SumOfPermutation` states that it does not depend on order. |
| Seqs.Put | AdventOfCode_Kotlin/src/main/kotlin/Day7.kt:92-95 | `LinkedHashMap.put`. `Seqs.PutShape`, `Seqs.PutReplaces` and `Seqs.PutKeepsOthers` state where the entry goes. |
| Seqs.PutShape | AdventOfCode_Kotlin/src/main/kotlin/Day7.kt:92-95 | `put` of a present key keeps the map's size; a new key goes last. |
| Seqs.PutReplaces | AdventOfCode_Kotlin/src/main/kotlin/Day7.kt:92-95 | `put` of a present key replaces that entry in its place. |
| Seqs.PutKeepsOthers | AdventOfCode_Kotlin/src/main/kotlin/Day7.kt:92-95 | `put` holds the new entry and keeps every entry of the other keys. |
| Seqs.AssociateKeys | AdventOfCode_Kotlin/src/main/kotlin/Day7.kt:92-95 | The keys of `associate` are the distinct keys of the pairs, in order of first appearance. |
| Seqs.AssociateLastWins | AdventOfCode_Kotlin/src/main/kotlin/Day7.kt:92-95 | Every pair that is the last one with its key is an entry of the `associate` map. |
| Seqs.Associate | AdventOfCode_Kotlin/src/main/kotlin/Day7.kt:92-95 | `associate`. `Seqs.AssociateKeys` and `Seqs.AssociateLastWins` state its keys and values. |
| Seqs.Lookup | AdventOfCode_Kotlin/src/main/kotlin/Day7.kt:79 | `improvedToBids[improved]!!` on a key of the map gives a value the map holds for that key. |
| Seqs.LookupUnique | AdventOfCode_Kotlin/src/main/kotlin/Day7.kt:79 | When every key occurs once, the value found is the value of that key's entry. |
| Ordering.CompareInt | AdventOfCode_Kotlin/src/main/kotlin/Day7.kt:50-55 | `Integer.compare` is -1, 0 or 1, is negative exactly when the first is smaller, and 0 exactly on equality. |
| Ordering.MaxWithIndex | AdventOfCode_Kotlin/src/main/kotlin/Day7.kt:66 | `maxWith` picks an element of the non-empty list. Which one is stated by `Ordering.MaxWithIsFirstGreatest`. |
| Ordering.MaxWithIsFirstGreatest | AdventOfCode_Kotlin/src/main/kotlin/Day7.kt:66 | For a comparator ordered by an integer key, `maxWith` picks an element no other exceeds, and the first such element. |
| Ordering.ToSortedMapKeys | AdventOfCode_Kotlin/src/main/kotlin/Day7.kt:77 | The sorted map's keys all come from the input map. |
| Ordering.ToSortedMapSorted | AdventOfCode_Kotlin/src/main/kotlin/Day7.kt:77 | `toSortedMap` lists its entries in strictly ascending comparator order. |
| Ordering.InsertWithTie | AdventOfCode_Kotlin/src/main/kotlin/Day7.kt:77 | A key that ties with a present key keeps that key and its place and takes the new value. |
| Ordering.InsertWithoutTie | AdventOfCode_Kotlin/src/main/kotlin/Day7.kt:77 | A key that ties with no present key adds its entry and keeps every other. |
| Ordering.Insert | AdventOfCode_Kotlin/src/main/kotlin/Day7.kt:77 | `TreeMap.put` adds at most one entry. `Ordering.InsertWithTie` and `Ordering.InsertWithoutTie` state which. |
| Ordering.ToSortedMap | AdventOfCode_Kotlin/src/main/kotlin/Day7.kt:77 | `toSortedMap` never has more entries than its input. `Ordering.ToSortedMapKeys`, `Ordering.ToSortedMapSorted` and `Ordering.ToSortedMapPermutation` state the rest. |
| Ordering.ToSortedMapPermutation | AdventOfCode_Kotlin/src/main/kotlin/Day7.kt:77 | When no two keys tie, the sorted map is a permutation of the input entries. |
| Ordering.SortedIndexIsRank | AdventOfCode_Kotlin/src/main/kotlin/Day7.kt:77-79 | In the sorted entries an entry's index is the number of entries below it. |
| Ordering.SortedMapWeightedSum | AdventOfCode_Kotlin/src/main/kotlin/Day7.kt:76-80 | When no keys tie, weighting the sorted entries' values by their 1-based positions and summing weights each value by its rank among the input. |
| Ordering.LookupWeightedSum | AdventOfCode_Kotlin/src/main/kotlin/Day7.kt:78-80 | Each key of the sorted map is weighted by its 1-based position times its value in the map it was built from. `Ordering.SortedMapLookupSum` states the sum. |
| Ordering.EntriesKeys | AdventOfCode_Kotlin/src/main/kotlin/Day7.kt:79 | The keys of entries taken from a map are keys of that map, so the `!!` lookup finds them. |
| Ordering.LookupWeightedSumOfEntries | AdventOfCode_Kotlin/src/main/kotlin/Day7.kt:78-80 | When the entries come from a map whose keys occur once, the looked-up values are the entries' own values. |
| Ordering.TieFreeKeysDistinct | AdventOfCode_Kotlin/src/main/kotlin/Day7.kt:77 | Keys that never tie under a comparator ordered by an integer key are distinct. |
| Ordering.SortedMapLookupSum | AdventOfCode_Kotlin/src/main/kotlin/Day7.kt:76-80 | When no keys tie, every key of the sorted map is found in the map, and the sum gives every entry its value times its rank: one plus the number of entries with a lower key. |
| Ordering.TiedKeysUseFirstValue | AdventOfCode_Kotlin/src/main/kotlin/Day7.kt:76-79 | With two tying keys the sorted map keeps the first key and takes the second value; looked up in the original map, the first value is the one weighted. |
| Day1.WordDigit | Day1/Day1_Exercise/src/main/kotlin/Main.kt:25-35 | The word at index `k` of `validNumbers` stands for the digit character `k + 1`. |
| Day1.WordsAreLetterWords | Day1/Day1_Exercise/src/main/kotlin/Main.kt:25-35 | There are nine number words, and none of them starts with a digit. |
| Day1.FirstDigitPos | Day1/Day1_Exercise/src/main/kotlin/Main.kt:39 | `firstOrNull { it.isDigit() }` finds the leftmost digit character, or none when there is none. |
| Day1.LastDigitPos | Day1/Day1_Exercise/src/main/kotlin/Main.kt:48 | `lastOrNull { it.isDigit() }` finds the rightmost digit character, or none when there is none. |
| Day1.FirstDigitHitSpec | Day1/Day1_Exercise/src/main/kotlin/Main.kt:39 | `firstDigit` is the leftmost digit character, with the index where it stands. |
| Day1.LastDigitHitSpec | Day1/Day1_Exercise/src/main/kotlin/Main.kt:48 | `lastDigit` is the rightmost digit character, with the index where it stands. |
| Day1.FirstDigitHit | Day1/Day1_Exercise/src/main/kotlin/Main.kt:39 | `firstDigit`. `Day1.FirstDigitHitSpec` states it is the leftmost digit character with its index. |
| Day1.LastDigitHit | Day1/Day1_Exercise/src/main/kotlin/Main.kt:48 | `lastDigit`. `Day1.LastDigitHitSpec` states it is the rightmost digit character with its index. |
| Day1.MinByIndex | Day1/Day1_Exercise/src/main/kotlin/Main.kt:46 | `minByOrNull` is null exactly on an empty list. Which hit it picks is stated by `Day1.MinByIndexSnoc`. |
| Day1.MaxByIndex | Day1/Day1_Exercise/src/main/kotlin/Main.kt:55 | `maxByOrNull` is null exactly on an empty list. Which hit it picks is stated by `Day1.MaxByIndexSnoc`. |
| Day1.MinByIndexSnoc | Day1/Day1_Exercise/src/main/kotlin/Main.kt:46 | One more hit replaces the minimum only when its index is strictly smaller, so the first least index wins. |
| Day1.MaxByIndexSnoc | Day1/Day1_Exercise/src/main/kotlin/Main.kt:55 | One more hit replaces the maximum only when its index is strictly greater, so the first greatest index wins. |
| Day1.FirstWordSpec | Day1/Day1_Exercise/src/main/kotlin/Main.kt:40-46 | `firstWord` is an occurrence of a number word with no word occurrence left of it, and the first word of the list among those at that position. |
| Day1.LastWordSpec | Day1/Day1_Exercise/src/main/kotlin/Main.kt:49-55 | `lastWord` is an occurrence of a number word with no word occurrence right of it. |
| Day1.FirstWordHits | Day1/Day1_Exercise/src/main/kotlin/Main.kt:40-45 | The `mapNotNull` of `indexOf` over the words. `Day1.FirstWordSpec` states what its minimum is. |
| Day1.LastWordHits | Day1/Day1_Exercise/src/main/kotlin/Main.kt:49-54 | The `mapNotNull` of `lastIndexOf` over the words. `Day1.LastWordSpec` states what its maximum is. |
| Day1.WordFrom | Day1/Day1_Exercise/src/main/kotlin/Main.kt:25-35 | The first number word of the list spelled at a position, with the digit it stands for; none when no word starts there. |
| Day1.DigitAt | Day1/Day1_Exercise/src/main/kotlin/Main.kt:25-35 | The digit spelled at a position is a single decimal digit. |
| Day1.FirstSpelled | Day1/Day1_Exercise/src/main/kotlin/Main.kt:57 | The leftmost position that spells a digit: nothing is spelled before it. |
| Day1.LastSpelled | Day1/Day1_Exercise/src/main/kotlin/Main.kt:58 | The rightmost position that spells a digit: nothing is spelled after it. |
| Day1.EarlierOfIsLeftmost | Day1/Day1_Exercise/src/main/kotlin/Main.kt:57 | Of the first digit character and the first word, the earlier one is the digit at the leftmost spelling position; a character and a word never tie. |
| Day1.LaterOfIsRightmost | Day1/Day1_Exercise/src/main/kotlin/Main.kt:58 | Of the last digit character and the last word, the later one is the digit at the rightmost spelling position. |
| Day1.EarlierOf | Day1/Day1_Exercise/src/main/kotlin/Main.kt:57 | The `minByOrNull` with the `Int.MAX_VALUE` sentinel. `Day1.EarlierOfIsLeftmost` states which hit it picks. |
| Day1.LaterOf | Day1/Day1_Exercise/src/main/kotlin/Main.kt:58 | The `maxByOrNull` with the `Int.MIN_VALUE` sentinel. `Day1.LaterOfIsRightmost` states which hit it picks. |
| Day1.FirstHitIsLeftmost | Day1/Day1_Exercise/src/main/kotlin/Main.kt:38-57 | `first` is the digit at the leftmost position that spells one, and is null exactly when none does. |
| Day1.LastHitIsRightmost | Day1/Day1_Exercise/src/main/kotlin/Main.kt:38-58 | `last` is the digit at the rightmost position that spells one, and is null exactly when none does. |
| Day1.FirstHit | Day1/Day1_Exercise/src/main/kotlin/Main.kt:39-57 | `first`. `Day1.FirstHitIsLeftmost` states it is the leftmost spelled digit. |
| Day1.LastHit | Day1/Day1_Exercise/src/main/kotlin/Main.kt:48-58 | `last`. `Day1.LastHitIsRightmost` states it is the rightmost spelled digit. |
| Day1.HitsAreDigits | Day1/Day1_Exercise/src/main/kotlin/Main.kt:57-60 | `first` and `last` are digit characters, so `"$first$last".toInt()` never fails. |
| Day1.LineValueIsSpelledValue | Day1/Day1_Exercise/src/main/kotlin/Main.kt:38-61 | For any list of at most nine letter-initial words, the pipeline's value is ten times the leftmost spelled digit plus the rightmost. |
| Day1.LineValue | Day1/Day1_Exercise/src/main/kotlin/Main.kt:38-61 | The value of one line for any word list. `Day1.LineValueIsSpelledValue` states it. |
| Day1.CalibrationValueIsReference | Day1/Day1_Exercise/src/main/kotlin/Main.kt:38-61 | With the nine number words, a line's value is ten times its leftmost spelled digit plus its rightmost one. |
| Day1.CalibrationValue | Day1/Day1_Exercise/src/main/kotlin/Main.kt:38-61 | The value of one line under the nine number words. `Day1.CalibrationValueIsReference` states it. |
| Day1.CalibrationFailsWithoutDigits | Day1/Day1_Exercise/src/main/kotlin/Main.kt:57 | The `!!` fails on a line exactly when no position of it spells a digit. |
| Day1.CalibrationValueRange | Day1/Day1_Exercise/src/main/kotlin/Main.kt:60 | Every line value lies in 0..99. |
| Day1.SingleDigitTwice | Day1/Day1_Exercise/src/main/kotlin/Main.kt:57-60 | A line that spells a digit `d` at one position only has the value 11 × `d`. |
| Day1.OnlySpelledValue | Day1/Day1_Exercise/src/main/kotlin/Main.kt:57-60 | The same, for the reference reading with any list of words. |
| Day1.EightTwo | Day1/Day1_Exercise/src/main/kotlin/Main.kt:40-55 | The overlapping words of "eightwo" count both ways: its value is 82. |
| Day1.EightTwoReference | Day1/Day1_Exercise/src/main/kotlin/Main.kt:40-55 | The reference reading of "eightwo" is also 82. |
| Day1.EightTwoFirst | Day1/Day1_Exercise/src/main/kotlin/Main.kt:40-46 | In "eightwo" the leftmost spelled digit is the 8 at position 0. |
| Day1.EightTwoLast | Day1/Day1_Exercise/src/main/kotlin/Main.kt:49-55 | In "eightwo" the rightmost spelled digit is the 2 at position 4. |
| Day1.ZeroIsNotADigit | Day1/Day1_Exercise/src/main/kotlin/Main.kt:25-35 | "zero" is no number word: the line "zero" fails. |
| Day1.ZeroReference | Day1/Day1_Exercise/src/main/kotlin/Main.kt:25-35 | The reference reading of "zero" finds no digit either. |
| Day1.TotalIsSumOfValues | Day1/Day1_Exercise/src/main/kotlin/Main.kt:63 | The total exists exactly when every line has a value, and is the sum of the line values. |
| Day1.Total | Day1/Day1_Exercise/src/main/kotlin/Main.kt:37-63 | `numbers.sum()` over the lines, failing when one line has no digit. `Day1.TotalIsSumOfValues` states it. |
| Day2.SetAllowedSnoc | AdventOfCode_Kotlin/src/main/kotlin/Day2.kt:23-32 | One more entry keeps a set within the limits exactly when the entry is within them. |
| Day2.GamePossibleSnoc | AdventOfCode_Kotlin/src/main/kotlin/Day2.kt:22-34 | One more set keeps a game possible exactly when the set is within the limits. |
| Day2.CheckBalls | AdventOfCode_Kotlin/src/main/kotlin/Day2.kt:23-32 | The inner loop fails exactly when an entry does not parse. Otherwise the flag stays set exactly when it was set and every entry of the set is within its colour's limit. |
| Day2.SetAllowed | AdventOfCode_Kotlin/src/main/kotlin/Day2.kt:24-31 | Every entry of a set is within its colour's limit. `Day2.SetAllowedSnoc` and `Day2.CheckBalls` tie it to the inner loop. |
| Day2.CheckSets | AdventOfCode_Kotlin/src/main/kotlin/Day2.kt:22-34 | The flag the set loop leaves is set exactly when the game is possible; the loop fails exactly when a set does not parse. |
| Day2.GamePossible | AdventOfCode_Kotlin/src/main/kotlin/Day2.kt:21-34 | Every set of a game is allowed. `Day2.CheckSets` states that the set loop's flag is this predicate. |
| Day2.GameScore | AdventOfCode_Kotlin/src/main/kotlin/Day2.kt:17-38 | One line adds its id when the game is possible and 0 otherwise, and fails where its id or a set does not parse. |
| Day2.SumOfPossibleGameIds | Day2/Day2_Exercise/src/main/kotlin/Main.kt:2-27 | The part 1 loop computes the sum of what every line adds, failing on the first line that does not parse. |
| Day2.PossibleIdSumOfGames | AdventOfCode_Kotlin/src/main/kotlin/Day2.kt:15-40 | Part 1 is 0 for no lines. It fails exactly when a line lacks an id or has a malformed set. Otherwise it is the sum of the ids of the possible games. |
| Day2.PossibleIdSum | AdventOfCode_Kotlin/src/main/kotlin/Day2.kt:15-40 | The part 1 answer. `Day2.SumOfPossibleGameIds` and `Day2.PossibleIdSumOfGames` state it. |
| Day2.GamePossibleReorder | AdventOfCode_Kotlin/src/main/kotlin/Day2.kt:22-34 | Possibility does not depend on the order of the sets, so the `return@forEach` shortcut changes nothing. |
| Day2.OtherColourAllowed | AdventOfCode_Kotlin/src/main/kotlin/Day2.kt:27-31 | An entry of any colour other than red, green and blue, added to any set, never makes a game impossible. |
| Day2.GameIdOfWords | AdventOfCode_Kotlin/src/main/kotlin/Day2.kt:18-19 | The id is the second word before the colon, read with `toInt`. |
| Day2.GameIdRoundTrip | Day2/Day2_Exercise/src/main/kotlin/Main.kt:5-6 | A line `Game <n>:` followed by anything has id `n`. |
| Day2.BallRoundTrip | AdventOfCode_Kotlin/src/main/kotlin/Day2.kt:24-26 | An entry written `<n> <colour>` parses back to that count and colour. |
| Day2.GameId | AdventOfCode_Kotlin/src/main/kotlin/Day2.kt:18-19 | The game id. `Day2.GameIdOfWords` and `Day2.GameIdRoundTrip` state what it reads. |
| Day2.ParseBall | AdventOfCode_Kotlin/src/main/kotlin/Day2.kt:25-27 | One entry's count and colour. `Day2.BallRoundTrip` states what it reads. |
| Day2.ParseSet | AdventOfCode_Kotlin/src/main/kotlin/Day2.kt:23 | The entries of one set, each parsed with `Day2.ParseBall`, failing when one fails. |
| Day2.ParseSets | AdventOfCode_Kotlin/src/main/kotlin/Day2.kt:18-20 | The sets of a line. `Day2.ParsedSets` states that a parsed line has a set. |
| Day2.SetCounts | AdventOfCode_Kotlin/src/main/kotlin/Day2.kt:58-70 | The inner loop of part 2 leaves, for each colour, the count of its last entry in the set, and 0 when the set has none. |
| Day2.Maxima | AdventOfCode_Kotlin/src/main/kotlin/Day2.kt:54-74 | The set loop of part 2 leaves, per colour, the running maximum of the sets' counts, seeded with `Int.MIN_VALUE`. |
| Day2.PowerOfGame | AdventOfCode_Kotlin/src/main/kotlin/Day2.kt:53-75 | The power of one line is the product of the three maxima, failing where a set does not parse. |
| Day2.SumOfGamePowers | Day2/Day2_Exercise/src/main/kotlin/Main.kt:31-60 | The part 2 loop computes the sum of the lines' powers, failing on the first line that does not parse. |
| Day2.PowerSumOfGames | AdventOfCode_Kotlin/src/main/kotlin/Day2.kt:50-79 | Part 2 is 0 for no lines. It fails exactly when a set is malformed. Otherwise it is the sum of the games' powers. |
| Day2.LastCount | AdventOfCode_Kotlin/src/main/kotlin/Day2.kt:58-70 | The count a set leaves for a colour. `Day2.LastCountOtherColour`, `Day2.LastCountAbsent` and `Day2.LastCountIsLast` state it. |
| Day2.MaxCount | AdventOfCode_Kotlin/src/main/kotlin/Day2.kt:54-74 | The running maximum over the sets. `Day2.MaxCountIsMaximum` states what it is. |
| Day2.GamePower | AdventOfCode_Kotlin/src/main/kotlin/Day2.kt:75 | The power of a game. `Day2.PowerOfGame` and `Day2.GamePowerReorder` state it. |
| Day2.PowerSum | AdventOfCode_Kotlin/src/main/kotlin/Day2.kt:50-79 | The part 2 answer. `Day2.SumOfGamePowers` and `Day2.PowerSumOfGames` state it. |
| Day2.LastCountOtherColour | AdventOfCode_Kotlin/src/main/kotlin/Day2.kt:65-69 | An entry of another colour anywhere in a set leaves a colour's count as it was. |
| Day2.LastCountAbsent | Day2/Day2_Exercise/src/main/kotlin/Main.kt:39-51 | A colour absent from a set counts 0 for that set. |
| Day2.LastCountIsLast | Day2/Day2_Exercise/src/main/kotlin/Main.kt:39-51 | A colour repeated within a set keeps the count of its last entry. |
| Day2.LastCountBounds | AdventOfCode_Kotlin/src/main/kotlin/Day2.kt:58-70 | A set's count is 0 or one of its entries', so a lower bound on both holds for it. |
| Day2.MaxCountIsMaximum | AdventOfCode_Kotlin/src/main/kotlin/Day2.kt:71-73 | A colour's maximum is at least each set's count, and is either some set's count or the `Int.MIN_VALUE` seed. With no sets it is the seed. |
| Day2.MaxCountAttained | AdventOfCode_Kotlin/src/main/kotlin/Day2.kt:54-73 | With at least one set, and counts no smaller than `Int.MIN_VALUE`, the seed never survives: the maximum is some set's count. So the seed appears only with no sets. |
| Day2.MaxCountAtMost | AdventOfCode_Kotlin/src/main/kotlin/Day2.kt:71-73 | When every set of one game is a set of another, its maxima are no larger. |
| Day2.MaxCountReorder | AdventOfCode_Kotlin/src/main/kotlin/Day2.kt:57-74 | A colour's maximum does not depend on the order of the sets. |
| Day2.GamePowerReorder | AdventOfCode_Kotlin/src/main/kotlin/Day2.kt:57-75 | The maxima and the power do not depend on the order of the sets. |
| Day2.ParsedSets | AdventOfCode_Kotlin/src/main/kotlin/Day2.kt:53 | A line that parses has at least one set, and every count fits in an Int. |
| Day2.ParsedPowerNonNegative | AdventOfCode_Kotlin/src/main/kotlin/Day2.kt:53-76 | Without negative counts the maxima and the power of a line are at least 0. |
| Day2.MaxCountNonNegative | AdventOfCode_Kotlin/src/main/kotlin/Day2.kt:54-73 | With a set and no negative count, a colour's maximum is at least 0. |
| Day3.RunStart | AdventOfCode_Kotlin/src/main/kotlin/Day3.kt:55 | The start of the digit run holding a column: digits from there to the column, and no digit just before. |
| Day3.Pending | AdventOfCode_Kotlin/src/main/kotlin/Day3.kt:39 | The buffered digits start at or before the current column. |
| Day3.ParseRow | AdventOfCode_Kotlin/src/main/kotlin/Day3.kt:38-59 | The scanning loop with its buffer returns the emissions of every column and of the line's end, failing where `toInt` would throw. |
| Day3.EmitAtColumn | AdventOfCode_Kotlin/src/main/kotlin/Day3.kt:40-47 | At a '.' or a symbol, the buffer holds exactly the digit run that ends there. |
| Day3.EmitAtDigit | AdventOfCode_Kotlin/src/main/kotlin/Day3.kt:55 | At a digit nothing is emitted and the digit joins the buffer. |
| Day3.EmitAtEnd | AdventOfCode_Kotlin/src/main/kotlin/Day3.kt:58 | At the end of the line the buffer holds the run that ends the line, which is still emitted. |
| Day3.ColumnStep | AdventOfCode_Kotlin/src/main/kotlin/Day3.kt:49-53 | At a non-digit column the pending number is emitted, then the symbol if there is one. The buffer is left empty, and a number that does not fit an Int fails the row. |
| Day3.EmissionAtRunEnd | AdventOfCode_Kotlin/src/main/kotlin/Day3.kt:42 | At the end of a maximal digit run the run's number is emitted first, with its decimal value and first..last columns, unless the value exceeds an Int. |
| Day3.SymbolsFound | AdventOfCode_Kotlin/src/main/kotlin/Day3.kt:51-53 | Every symbol of the row is among its elements, with range column - 1 .. column + 1. |
| Day3.RunsFound | AdventOfCode_Kotlin/src/main/kotlin/Day3.kt:38-58 | Every maximal digit run of the row is among its elements, as the number it spells over exactly its columns. |
| Day3.ElementsSome | AdventOfCode_Kotlin/src/main/kotlin/Day3.kt:42 | A row scans without error exactly when each of its digit runs fits an Int. |
| Day3.ElementsShape | AdventOfCode_Kotlin/src/main/kotlin/Day3.kt:48-58 | Every element is a number over a maximal run or a symbol with its widened range, and the elements come in strictly ascending column order. |
| Day3.EmissionsShape | AdventOfCode_Kotlin/src/main/kotlin/Day3.kt:48-57 | The emissions of a prefix of columns are placed, ascending, and left of the prefix's end. |
| Day3.EmissionsPrefix | AdventOfCode_Kotlin/src/main/kotlin/Day3.kt:48-57 | The emissions of a shorter prefix of columns begin those of a longer one. |
| Day3.Elements | AdventOfCode_Kotlin/src/main/kotlin/Day3.kt:38-59 | `parse(line, rowId)`. `Day3.ParseRow`, `Day3.RunsFound`, `Day3.SymbolsFound`, `Day3.ElementsSome` and `Day3.ElementsShape` state what it finds. |
| Day3.AllElementsSome | AdventOfCode_Kotlin/src/main/kotlin/Day3.kt:67-68 | The schematic scans exactly when every row does. |
| Day3.AllElementsShape | AdventOfCode_Kotlin/src/main/kotlin/Day3.kt:67-68 | Every element is placed in the row it names, and the rows come in order. |
| Day3.AllElementsComplete | AdventOfCode_Kotlin/src/main/kotlin/Day3.kt:67-68 | Every element of every row is among the schematic's elements. |
| Day3.AllElements | AdventOfCode_Kotlin/src/main/kotlin/Day3.kt:67-68 | `parse(lines)`. `Day3.AllElementsSome`, `Day3.AllElementsShape` and `Day3.AllElementsComplete` state it. |
| Day3.OverlapShares | AdventOfCode_Kotlin/src/main/kotlin/Day3.kt:76-84 | For non-empty ranges, overlap is symmetric and holds exactly when the ranges share an integer. |
| Day3.OverlapEmptyLopsided | AdventOfCode_Kotlin/src/main/kotlin/Day3.kt:76-84 | With an empty range overlap is not symmetric. |
| Day3.Overlap | AdventOfCode_Kotlin/src/main/kotlin/Day3.kt:76-84 | `IntRange.overlap`. `Day3.OverlapShares` and `Day3.OverlapEmptyLopsided` state when it holds. |
| Day3.NumberOverlapTouches | AdventOfCode_Kotlin/src/main/kotlin/Day3.kt:92-97 | A number overlaps a symbol exactly when the symbol's cell is next to one of its digits, diagonals included; rows further apart never overlap. |
| Day3.NumberOverlap | AdventOfCode_Kotlin/src/main/kotlin/Day3.kt:92-97 | `Number.overlap`. `Day3.NumberOverlapTouches` states that it means adjacency on the grid. |
| Day3.NumbersOf | AdventOfCode_Kotlin/src/main/kotlin/Day3.kt:117 | `filterIsInstance<Number>()` keeps exactly the numbers. |
| Day3.CharactersOf | AdventOfCode_Kotlin/src/main/kotlin/Day3.kt:118 | `filterIsInstance<Character>()` keeps exactly the symbols. |
| Day3.GearsOf | AdventOfCode_Kotlin/src/main/kotlin/Day3.kt:132-134 | The gear filter keeps exactly the '*' symbols. |
| Day3.RowFilterMembers | AdventOfCode_Kotlin/src/main/kotlin/Day3.kt:118 | A row's elements are exactly the elements with that row. |
| Day3.GroupByRowFilters | AdventOfCode_Kotlin/src/main/kotlin/Day3.kt:118 | Each `groupBy` group holds exactly its row's elements in order, and an empty row has no group. |
| Day3.GroupByRow | AdventOfCode_Kotlin/src/main/kotlin/Day3.kt:118 | `groupBy { it.row }`. `Day3.GroupByRowFilters` states its groups. |
| Day3.ContextRows | AdventOfCode_Kotlin/src/main/kotlin/Day3.kt:105-107 | `getContext(r)` is the elements of rows r - 1, r and r + 1, in that order; missing rows add nothing. |
| Day3.ContextMembers | AdventOfCode_Kotlin/src/main/kotlin/Day3.kt:105-107 | The context of a row holds exactly the elements at most one row away. |
| Day3.Context | AdventOfCode_Kotlin/src/main/kotlin/Day3.kt:105-107 | `getContext`. `Day3.ContextRows` and `Day3.ContextMembers` state what it holds. |
| Day3.PartNumbers | AdventOfCode_Kotlin/src/main/kotlin/Day3.kt:119 | The part numbers are exactly the numbers that overlap a symbol of their row's context. |
| Day3.AnyOverlapTouches | AdventOfCode_Kotlin/src/main/kotlin/Day3.kt:119 | Looking in the context finds an overlapping symbol exactly when some symbol of the schematic touches the number. |
| Day3.AnyOverlap | AdventOfCode_Kotlin/src/main/kotlin/Day3.kt:119 | `any { c -> n.overlap(c) }`. `Day3.AnyOverlapTouches` states when it holds. |
| Day3.PartNumbersTouching | AdventOfCode_Kotlin/src/main/kotlin/Day3.kt:117-120 | Filtering through the row contexts keeps exactly the numbers that touch a symbol, each once and in order. |
| Day3.Part1Sums | AdventOfCode_Kotlin/src/main/kotlin/Day3.kt:115-121 | Part 1 is the sum of the numbers that touch a symbol, each counted once. |
| Day3.Part1Fails | AdventOfCode_Kotlin/src/main/kotlin/Day3.kt:115-121 | Part 1 fails exactly when some row holds a number that does not fit an Int. |
| Day3.Part1 | AdventOfCode_Kotlin/src/main/kotlin/Day3.kt:115-121 | `part1`. `Day3.Part1Sums` and `Day3.Part1Fails` state it. |
| Day3.OverlappingMembers | AdventOfCode_Kotlin/src/main/kotlin/Day3.kt:136 | The numbers found against a gear are exactly the numbers that overlap it. |
| Day3.Overlapping | AdventOfCode_Kotlin/src/main/kotlin/Day3.kt:137 | `filter { it.overlap(g) }`. `Day3.OverlappingMembers` states what it keeps. |
| Day3.OverlappingNear | AdventOfCode_Kotlin/src/main/kotlin/Day3.kt:136 | The numbers that overlap a gear all lie in the rows near it. |
| Day3.RowsOverlapping | AdventOfCode_Kotlin/src/main/kotlin/Day3.kt:136 | Searching the three rows around a gear finds the same numbers, in the same order, as searching the whole schematic. |
| Day3.GearSumIsAll | AdventOfCode_Kotlin/src/main/kotlin/Day3.kt:131-139 | Summing the gear ratios through the row contexts equals summing them with all numbers of the schematic. |
| Day3.GearSum | AdventOfCode_Kotlin/src/main/kotlin/Day3.kt:136-139 | The sum of the gear ratios. `Day3.GearSumIsAll` and `Day3.Part2Sums` state it. |
| Day3.Part2Sums | AdventOfCode_Kotlin/src/main/kotlin/Day3.kt:129-140 | Part 2 sums, over the '*' symbols with exactly two overlapping numbers in the whole schematic, the product of those two numbers. |
| Day3.Part2 | AdventOfCode_Kotlin/src/main/kotlin/Day3.kt:129-140 | `part2`. `Day3.Part2Sums` states it. |
| Day4.NonEmptyFacts | AdventOfCode_Kotlin/src/main/kotlin/Day4.kt:17 | `filter { it.isNotEmpty() }` keeps exactly the non-empty tokens. |
| Day4.NonEmpty | AdventOfCode_Kotlin/src/main/kotlin/Day4.kt:17 | `filter { it.isNotEmpty() }`. `Day4.NonEmptyFacts` states what it keeps. |
| Day4.NumbersOfNumerals | AdventOfCode_Kotlin/src/main/kotlin/Day4.kt:16-18 | Numbers printed with single spaces between them read back. |
| Day4.NumbersDropEmptyTokens | AdventOfCode_Kotlin/src/main/kotlin/Day4.kt:16-18 | With runs of spaces between the digit tokens, the empty tokens are dropped: the result is the non-empty tokens read with `toInt`. |
| Day4.Numbers | AdventOfCode_Kotlin/src/main/kotlin/Day4.kt:17-18 | The numbers of one side of a card. `Day4.NumbersOfNumerals` and `Day4.NumbersDropEmptyTokens` state what it reads. |
| Day4.ParseLineRoundTrip | AdventOfCode_Kotlin/src/main/kotlin/Day4.kt:14-20 | A card written as title, ':', winning numbers, '|' and own numbers parses back to the two lists. |
| Day4.ParseLine | AdventOfCode_Kotlin/src/main/kotlin/Day4.kt:14-20 | `parseLine`. `Day4.ParseLineRoundTrip` states what it reads. |
| Day4.SetOfCard | AdventOfCode_Kotlin/src/main/kotlin/Day4.kt:34 | A list has at most as many distinct numbers as entries. |
| Day4.MatchCountBounds | AdventOfCode_Kotlin/src/main/kotlin/Day4.kt:34 | The match count is at most the distinct numbers on either side, and does not depend on the side. |
| Day4.MatchCountDuplicate | AdventOfCode_Kotlin/src/main/kotlin/Day4.kt:61 | A repeated number counts once. |
| Day4.MatchCountNew | AdventOfCode_Kotlin/src/main/kotlin/Day4.kt:61 | A new number on both sides adds exactly one match. |
| Day4.MatchCount | AdventOfCode_Kotlin/src/main/kotlin/Day4.kt:34 | `intersect(...).size`. `Day4.MatchCountBounds`, `Day4.MatchCountDuplicate` and `Day4.MatchCountNew` state it. |
| Day4.ScoreDoubles | AdventOfCode_Kotlin/src/main/kotlin/Day4.kt:35 | No match scores 0 and one match scores 1. Each further match doubles the score until `Int.MAX_VALUE` caps it. |
| Day4.Score | AdventOfCode_Kotlin/src/main/kotlin/Day4.kt:35 | The score of a card. `Day4.ScoreDoubles` states it. |
| Day4.Part1 | AdventOfCode_Kotlin/src/main/kotlin/Day4.kt:30-39 | The loop filling `resultList` computes the sum of the card scores, failing where a line does not parse. |
| Day4.TotalScoreNonNegative | AdventOfCode_Kotlin/src/main/kotlin/Day4.kt:38 | The part 1 total is at least 0, and 0 when no card has a match. |
| Day4.TotalScore | AdventOfCode_Kotlin/src/main/kotlin/Day4.kt:30-39 | The part 1 answer. `Day4.Part1` computes it with the loop, and `Day4.TotalScoreNonNegative` bounds it. |
| Day4.Cascade | AdventOfCode_Kotlin/src/main/kotlin/Day4.kt:42-48 | One copy of a card accounts for at least itself. |
| Day4.WeightOfAll | AdventOfCode_Kotlin/src/main/kotlin/Day4.kt:51 | The initial queue, holding every card once, stands for the sum of all cascades. |
| Day4.PushCopies | AdventOfCode_Kotlin/src/main/kotlin/Day4.kt:63-68 | The inner loop puts the copies index + m, ..., index + 1 in front of the queue, skipping indices past the last card. |
| Day4.WeightPushed | AdventOfCode_Kotlin/src/main/kotlin/Day4.kt:63-68 | The copies one card pushes stand for exactly the cascades it wins. |
| Day4.Copies | AdventOfCode_Kotlin/src/main/kotlin/Day4.kt:63-68 | The cascades of the copies a card wins. `Day4.PushCopies` and `Day4.WeightPushed` tie it to the pushed queue entries. |
| Day4.ProcessFront | AdventOfCode_Kotlin/src/main/kotlin/Day4.kt:55-69 | One turn dequeues the front entry, parses its card and pushes its copies in front. It fails where a line does not parse or where the `do`-`while` would never end. |
| Day4.DequeueStep | AdventOfCode_Kotlin/src/main/kotlin/Day4.kt:54-70 | After one turn the total plus the cascades still queued is still the sum of all cascades, with the total one higher. The queued cascades strictly shrink, so the loop ends. |
| Day4.TurnKeepsInvariants | AdventOfCode_Kotlin/src/main/kotlin/Day4.kt:54-70 | The `while` loop's invariants hold again after one turn. |
| Day4.Part2 | AdventOfCode_Kotlin/src/main/kotlin/Day4.kt:49-73 | The queue loop returns the number of cards the cascade processes, that is, the sum of all cascades. |
| Day4.TotalCardsFails | AdventOfCode_Kotlin/src/main/kotlin/Day4.kt:60-61 | A line that does not parse makes part 2 fail. |
| Day4.TotalCardsLastMatches | AdventOfCode_Kotlin/src/main/kotlin/Day4.kt:59-69 | A match on the last card makes part 2 fail: `first()` throws or the loop never ends. |
| Day4.TotalCardsOk | AdventOfCode_Kotlin/src/main/kotlin/Day4.kt:49-73 | Every line parsing and no match on the last card make part 2 succeed. |
| Day4.TotalCardsAtLeastLines | AdventOfCode_Kotlin/src/main/kotlin/Day4.kt:51-56 | Each dequeued entry adds one, so the total is at least the number of lines. |
| Day4.LastCardCascade | AdventOfCode_Kotlin/src/main/kotlin/Day4.kt:65 | The last card stands for itself only: its copies would lie past the end. |
| Day4.NoMatchesTotal | AdventOfCode_Kotlin/src/main/kotlin/Day4.kt:49-73 | Without any match the total is the number of cards. |
| Day4.TotalCards | AdventOfCode_Kotlin/src/main/kotlin/Day4.kt:49-73 | The part 2 answer. `Day4.Part2` computes it with the queue loop, and the `Day4.TotalCards` lemmas state when it exists and its bounds. |
| Day5.ApplyMaps | AdventOfCode_Kotlin/src/main/kotlin/Day5.kt:7-18 | The nested loops with `break` apply the maps one after the other, each by its first covering triple. |
| Day5.ApplyMapFirstCover | AdventOfCode_Kotlin/src/main/kotlin/Day5.kt:10-15 | The first triple that covers a value decides, and the value keeps its offset within the interval. |
| Day5.ApplyMapNoCover | AdventOfCode_Kotlin/src/main/kotlin/Day5.kt:10-15 | A value no triple covers passes through unchanged. |
| Day5.ApplyMap | AdventOfCode_Kotlin/src/main/kotlin/Day5.kt:10-15 | One map applied to a value. `Day5.ApplyMapFirstCover` and `Day5.ApplyMapNoCover` state it. |
| Day5.ApplyAllCompose | AdventOfCode_Kotlin/src/main/kotlin/Day5.kt:9 | Applying `m1 ++ m2` is applying `m1` and then `m2`; no maps leave the seed as it is. |
| Day5.EmptyMapsChangeNothing | AdventOfCode_Kotlin/src/main/kotlin/Day5.kt:7-18 | Maps without triples leave every seed where it is. |
| Day5.ApplyAll | AdventOfCode_Kotlin/src/main/kotlin/Day5.kt:7-18 | `applyMaps`. `Day5.ApplyMaps` computes it with the loops, and `Day5.ApplyAllCompose` states how it composes. |
| Day5.ParseSeedsRoundTrip | AdventOfCode_Kotlin/src/main/kotlin/Day5.kt:21 | A seed line written as a title, ": " and space-separated numbers reads back as the numbers. |
| Day5.ParseSeeds | AdventOfCode_Kotlin/src/main/kotlin/Day5.kt:21 | The seeds. `Day5.ParseSeedsRoundTrip` states what it reads. |
| Day5.SeedRanges | AdventOfCode_Kotlin/src/main/kotlin/Day5.kt:23-24 | `chunked(2)` gives ranges exactly for an even number of seeds: one per pair, first to second. |
| Day5.SectionedFailureStays | AdventOfCode_Kotlin/src/main/kotlin/Day5.kt:31-41 | Once a triple line fails, every longer input fails. |
| Day5.ParseMaps | AdventOfCode_Kotlin/src/main/kotlin/Day5.kt:29-42 | The map-building loop returns the closed maps and the last one, failing where a triple does not parse. |
| Day5.SectionedContents | AdventOfCode_Kotlin/src/main/kotlin/Day5.kt:31-41 | Every header closes one map, and the triples of the data lines fill the maps in order, so there are as many closed maps as headers. The loop fails exactly when a data line does. Where each map starts and ends is `Day5.SectionedAtHeader`. |
| Day5.Sectioned | AdventOfCode_Kotlin/src/main/kotlin/Day5.kt:31-41 | The section loop over the lines. `Day5.SectionedContents`, `Day5.SectionedNoHeader`, `Day5.SectionedAtHeader` and `Day5.SectionedFailureStays` state it. |
| Day5.MapsOfContents | AdventOfCode_Kotlin/src/main/kotlin/Day5.kt:29-44 | After the first three lines, `parse` succeeds exactly when every triple line parses. It then returns one more map than there are headers, holding those lines' triples in order. How they are cut into maps is `Day5.MapsOfAfterLastHeader` and `Day5.MapsOfNoHeader`. |
| Day5.MapsOf | AdventOfCode_Kotlin/src/main/kotlin/Day5.kt:29-44 | The maps `parse` returns. `Day5.ParseMaps` computes them with the loop. `Day5.MapsOfContents`, `Day5.MapsOfAfterLastHeader` and `Day5.MapsOfNoHeader` state them. |
| Day5.SectionedNoHeader | AdventOfCode_Kotlin/src/main/kotlin/Day5.kt:31-41 | Lines without a header leave the closed maps alone. The current map grows by the triples of their data lines, in order, and it fails when one of them fails. |
| Day5.SectionedAtHeader | AdventOfCode_Kotlin/src/main/kotlin/Day5.kt:35-38 | A header closes the current map and opens an empty one. The map it opens holds exactly the triples of the data lines up to the next header. |
| Day5.TwoSections | AdventOfCode_Kotlin/src/main/kotlin/Day5.kt:31-41 | For a header, a triple line, a header and a triple line, the closed maps are an empty map and a map of the first triple, and the current map holds the second triple. So each triple lands in the map its header opened. |
| Day5.MapsOfNoHeader | AdventOfCode_Kotlin/src/main/kotlin/Day5.kt:29-44 | With no header after the first three lines, `parse` returns a single map of all the triples. |
| Day5.MapsOfAfterLastHeader | AdventOfCode_Kotlin/src/main/kotlin/Day5.kt:29-44 | The maps `parse` returns are those closed before the last header, the map that header closes, and the triples after it. |
| Day5.MinOrZero | AdventOfCode_Kotlin/src/main/kotlin/Day5.kt:50 | `minByOrNull ?: 0` is 0 on no locations and otherwise the least one. |
| Day5.Locations | AdventOfCode_Kotlin/src/main/kotlin/Day5.kt:49 | Each seed's location is the maps applied to it. |
| Day5.Part1IsLowestLocation | AdventOfCode_Kotlin/src/main/kotlin/Day5.kt:47-58 | Part 1 is the lowest location any seed reaches, and 0 without seeds. |
| Day5.Part1 | AdventOfCode_Kotlin/src/main/kotlin/Day5.kt:47-58 | `part1`. `Day5.Part1IsLowestLocation` states it. |
| Day6.CalculateWinningVariants | AdventOfCode_Kotlin/src/main/kotlin/Day6.kt:47-57 | The loop counts exactly the hold durations `b` in `0 until time` with `b * (time - b) > distance`, i.e. the size of the set of winning holds. |
| Day6.WinCountIsCardinality | AdventOfCode_Kotlin/src/main/kotlin/Day6.kt:49-54 | The count is the size of the set of winning holds below the bound. |
| Day6.WinCount | AdventOfCode_Kotlin/src/main/kotlin/Day6.kt:47-57 | The count of winning holds. `Day6.CalculateWinningVariants` computes it with the loop, and `Day6.WinCountIsCardinality` states what it counts. |
| Day6.WinCountBounds | AdventOfCode_Kotlin/src/main/kotlin/Day6.kt:49 | At most every hold wins, and no hold wins below 0. |
| Day6.RaceCountRange | AdventOfCode_Kotlin/src/main/kotlin/Day6.kt:49 | A race's count lies in 0..time, and is 0 when time ≤ 0. |
| Day6.WinCountAntitone | AdventOfCode_Kotlin/src/main/kotlin/Day6.kt:52 | A higher record never gives more winning holds. |
| Day6.WinsSymmetric | AdventOfCode_Kotlin/src/main/kotlin/Day6.kt:50-51 | Holding for `b` or for `time - b` travels the same distance, so both win or neither does. |
| Day6.WinningHoldsSymmetric | AdventOfCode_Kotlin/src/main/kotlin/Day6.kt:50-52 | For 0 < b < time, `b` is a winning hold exactly when `time - b` is. |
| Day6.ExampleRace | AdventOfCode_Kotlin/src/main/kotlin/Day6.kt:47-57 | A 7 ms race against a record of 9 has 4 winning holds. |
| Day6.Zip | AdventOfCode_Kotlin/src/main/kotlin/Day6.kt:62 | `zip` pairs elements up to the shorter list's length, dropping the unmatched tail. |
| Day6.ReduceProduct | AdventOfCode_Kotlin/src/main/kotlin/Day6.kt:70 | `reduce` fails exactly on an empty list. |
| Day6.ReduceIsProduct | AdventOfCode_Kotlin/src/main/kotlin/Day6.kt:70 | On a non-empty list `reduce { acc, i -> acc * i }` is the product. |
| Day6.RaceCounts | AdventOfCode_Kotlin/src/main/kotlin/Day6.kt:62-64 | Each race's count is its number of winning holds, in order. |
| Day6.Part1IsProduct | AdventOfCode_Kotlin/src/main/kotlin/Day6.kt:60-70 | Part 1 fails only when parsing fails or a list is empty; otherwise it is the product of the counts of the zipped races. |
| Day6.Part1 | AdventOfCode_Kotlin/src/main/kotlin/Day6.kt:60-70 | The part 1 answer. `Day6.Part1IsProduct` states it. |
| Day6.SpacedPieces | AdventOfCode_Kotlin/src/main/kotlin/Day6.kt:15 | A label followed by numbers, each after a whitespace run of any length, splits into the label and the numbers' digits. |
| Day6.ParseRowSpaced | AdventOfCode_Kotlin/src/main/kotlin/Day6.kt:15-16 | A row written as a label and 32-bit numbers padded with whitespace runs of any length reads back as the numbers, with the label dropped. |
| Day6.ParseRow | AdventOfCode_Kotlin/src/main/kotlin/Day6.kt:15-16 | One row of part 1. `Day6.ParseRowSpaced` and `Day6.ExampleTimeRow` state what it reads. |
| Day6.ExampleTimeRow | AdventOfCode_Kotlin/src/main/kotlin/Day6.kt:15 | The padded example row "Time:      7  15   30" reads as 7, 15 and 30. |
| Day6.Joined | AdventOfCode_Kotlin/src/main/kotlin/Day6.kt:33 | The numbers' digits run together are all digits. |
| Day6.RemoveSpaces | AdventOfCode_Kotlin/src/main/kotlin/Day6.kt:33-34 | Deleting the spaces from numbers padded with spaces (any number, none included) runs their digits together, and no ':' occurs in them. |
| Day6.ParseJoinedSpaced | AdventOfCode_Kotlin/src/main/kotlin/Day6.kt:33-34 | Part 2 reads a label, ':' and space-padded numbers as the single number their digits spell together. |
| Day6.ParseJoined | AdventOfCode_Kotlin/src/main/kotlin/Day6.kt:33-34 | One row of part 2. `Day6.ParseJoinedSpaced` states what it reads. |
| Day6.Part2 | AdventOfCode_Kotlin/src/main/kotlin/Day6.kt:66-68 | The count for the one race the lines spell. `Day6.ParseJoinedSpaced` and `Day6.WinCountIsCardinality` state its parts. |
| Day7.CardStrength | AdventOfCode_Kotlin/src/main/kotlin/Day7.kt:10-17 | A card's strength lies in 0..15. |
| Day7.CardStrengthTable | AdventOfCode_Kotlin/src/main/kotlin/Day7.kt:10-17 | A=15, K=14, Q=13, T=11, a digit its face value, J 12 or 0 with jokers. |
| Day7.CardStrengthOrder | AdventOfCode_Kotlin/src/main/kotlin/Day7.kt:10-17 | Strength grows strictly along 2..9, T, J, Q, K, A. With jokers J drops below every other card and the rest keep their order. |
| Day7.CardStrengthInjective | AdventOfCode_Kotlin/src/main/kotlin/Day7.kt:10-17 | In either mode no two cards of the alphabet have the same strength. |
| Day7.CountsOver | AdventOfCode_Kotlin/src/main/kotlin/Day7.kt:25 | The count listed for each card is its number of occurrences in the hand. |
| Day7.SumCountValues | AdventOfCode_Kotlin/src/main/kotlin/Day7.kt:25 | The counts of `eachCount` add up to the hand's length. |
| Day7.CountValues | AdventOfCode_Kotlin/src/main/kotlin/Day7.kt:25 | `groupingBy { it }.eachCount()` values. `Day7.CountsOver` and `Day7.SumCountValues` state them. |
| Day7.HandType | AdventOfCode_Kotlin/src/main/kotlin/Day7.kt:24-35 | A hand's category lies in 1..7. |
| Day7.ProfileTable | AdventOfCode_Kotlin/src/main/kotlin/Day7.kt:26-34 | On positive counts adding up to 5, the `when` agrees with the puzzle's table of count profiles. |
| Day7.CategoryOfCounts | AdventOfCode_Kotlin/src/main/kotlin/Day7.kt:26-34 | The `when` of `type()`. `Day7.ProfileTable` states it matches the puzzle's table. |
| Day7.HandTypeMatchesTable | AdventOfCode_Kotlin/src/main/kotlin/Day7.kt:24-35 | A five-card hand's category is given by its count multiset: {5}→7, {4,1}→6, {3,2}→5, {3,1,1}→4, {2,2,1}→3, {2,1,1,1}→2, {1,1,1,1,1}→1. |
| Day7.CountsOverReorder | AdventOfCode_Kotlin/src/main/kotlin/Day7.kt:25 | Counting over two orderings of the same distinct cards gives the same multiset of counts. |
| Day7.HandTypeOrderFree | AdventOfCode_Kotlin/src/main/kotlin/Day7.kt:25 | A hand's category does not depend on the order of its cards. |
| Day7.FiveOfAKind | AdventOfCode_Kotlin/src/main/kotlin/Day7.kt:28 | Five equal cards are five of a kind. |
| Day7.FiveOfAKindAndOne | AdventOfCode_Kotlin/src/main/kotlin/Day7.kt:28 | Six characters whose first five cards are the same are five of a kind. |
| Day7.CompareFromLexicographic | AdventOfCode_Kotlin/src/main/kotlin/Day7.kt:51-55 | The card tie-break is the lexicographic order of the strengths, and antisymmetric. |
| Day7.CompareLexicographic | AdventOfCode_Kotlin/src/main/kotlin/Day7.kt:50-55 | The comparators order by the category key, then lexicographically by the five strengths. They return 0 exactly when all six agree, and are antisymmetric. |
| Day7.Compare | AdventOfCode_Kotlin/src/main/kotlin/Day7.kt:50-55 | The comparator chain. `Day7.CompareLexicographic` and `Day7.CompareIsKeyOrder` state it. |
| Day7.CompareTieMeansSameHand | AdventOfCode_Kotlin/src/main/kotlin/Day7.kt:50-55 | For hands over the alphabet, in either mode, a tie means the same dealt hand. |
| Day7.KeyFrom | AdventOfCode_Kotlin/src/main/kotlin/Day7.kt:51-55 | The strengths read as base-16 digits stay below the number's span. |
| Day7.CompareIsKeyOrder | AdventOfCode_Kotlin/src/main/kotlin/Day7.kt:50-55 | The comparators compare hands exactly as one integer sort key per hand compares. |
| Day7.CompareTransitive | AdventOfCode_Kotlin/src/main/kotlin/Day7.kt:50-55 | The comparators are transitive, strictly where either step is strict. |
| Day7.ComparatorOrderedBy | AdventOfCode_Kotlin/src/main/kotlin/Day7.kt:89-90 | On comparable hands each comparator is the order of an integer key. |
| Day7.CompareCandidates | AdventOfCode_Kotlin/src/main/kotlin/Day7.kt:65 | Candidates share their dealt hand, so the joker comparator orders them by improved category alone. |
| Day7.ImproveMaximizes | AdventOfCode_Kotlin/src/main/kotlin/Day7.kt:62-66 | The candidate `maxWith` picks has the greatest category, and is the first candidate with it. |
| Day7.ImproveIsFirstBest | AdventOfCode_Kotlin/src/main/kotlin/Day7.kt:62-66 | `improve` keeps the dealt hand and replaces every J by a card of the hand: the first distinct card whose substitution gives the greatest category. |
| Day7.ImproveIsBest | AdventOfCode_Kotlin/src/main/kotlin/Day7.kt:62-66 | No card of the hand, put in place of the jokers, gives a better category than the improved one. |
| Day7.ImproveNeverWorse | AdventOfCode_Kotlin/src/main/kotlin/Day7.kt:63-66 | A hand without J is its own improvement, and the improved category is never below the dealt one. |
| Day7.ImproveFiveJokers | AdventOfCode_Kotlin/src/main/kotlin/Day7.kt:62-66 | "JJJJJ" stays "JJJJJ" and is five of a kind. |
| Day7.Improve | AdventOfCode_Kotlin/src/main/kotlin/Day7.kt:62-66 | `improve`. `Day7.ImproveMaximizes`, `Day7.ImproveIsFirstBest` and `Day7.ImproveIsBest` state what it picks. |
| Day7.ParseLineRoundTrip | AdventOfCode_Kotlin/src/main/kotlin/Day7.kt:93 | A line "hand bid" gives back the hand and the bid's value. |
| Day7.ParseLine | AdventOfCode_Kotlin/src/main/kotlin/Day7.kt:93 | The hand and bid of a line. `Day7.ParseLineRoundTrip` states what it reads. |
| Day7.HandBidsPerLine | AdventOfCode_Kotlin/src/main/kotlin/Day7.kt:92-95 | The hand-bid pairs exist exactly when every line is fine, one per line in order. |
| Day7.HandBids | AdventOfCode_Kotlin/src/main/kotlin/Day7.kt:92-95 | The pairs fed to `associate`. `Day7.HandBidsPerLine` states them. |
| Day7.SumWinnings | AdventOfCode_Kotlin/src/main/kotlin/Day7.kt:75-81 | An empty table wins nothing. Each hand of the sorted map is weighted by the bid it has in the table itself, so the `!!` never fails. `Day7.SumWinningsByRank` and `Day7.TiedHandsUseKeptBid` state the sum with and without ties. |
| Day7.SumWinningsByRank | AdventOfCode_Kotlin/src/main/kotlin/Day7.kt:75-81 | Without ties the winnings are the sum of every bid times its rank: one plus the number of weaker hands. |
| Day7.TiedHandsUseKeptBid | AdventOfCode_Kotlin/src/main/kotlin/Day7.kt:76-79 | For the tied lines "AAAAA2 10" and "AAAAA3 20" both answers are 10, the bid of the hand the sorted map keeps. |
| Day7.TableTieFree | AdventOfCode_Kotlin/src/main/kotlin/Day7.kt:89-95 | The improved hands of lines over the alphabet never tie under either comparator. |
| Day7.WinningsByRank | AdventOfCode_Kotlin/src/main/kotlin/Day7.kt:86-98 | When the hands are five cards of the alphabet, both answers sum every surviving bid times its rank, in the respective ordering. |
| Day7.WinningsKeepLastBid | AdventOfCode_Kotlin/src/main/kotlin/Day7.kt:92-95 | Of several lines with the same hand only the last one's bid is in the table. |
| Day7.Winnings | AdventOfCode_Kotlin/src/main/kotlin/Day7.kt:86-98 | `main`'s two answers. `Day7.WinningsByRank` and `Day7.WinningsKeepLastBid` state them. |

## Left out

- File reading, `println` and the `main` entry points are not modelled; every script takes its lines as a parameter.
- Unicode: `isDigit`, `isWhitespace`, `trim` and `toInt` are restricted to ASCII digits and whitespace.
- Day1 `FileParser.parseFile` reads the file with `readLines()` and maps over the lines. The model takes the lines as a parameter (`Day1.Total`).
- Day1.Total: `numbers.sum()` is an Int sum, which wraps past `Int.MAX_VALUE`. The model's sum is unbounded. Every line adds at most 99 (`Day1.CalibrationValueRange`), so the wrap needs more than 21 million lines.
- Day1.TotalIsSumOfValues: states the unbounded sum, for the same reason as `Day1.Total`.
- Day1.CalibrationValueIsReference: requires the line to be at most `Int.MAX_VALUE` characters long. The `?: Int.MAX_VALUE` and `?: Int.MIN_VALUE` sentinels stop meaning "absent" beyond that length.
- Day2: counts and sums are not bounded to 32 bits. The sums and products of part 2 can wrap around in Kotlin and do not here. Parsed counts themselves are within the Int range, as `toInt` checks.
- Day2: the `return@forEach` in part 1 only ends the current lambda. The model keeps checking the remaining sets and `Day2.GamePossibleReorder` shows the outcome is the same.
- Day3: `sequence { yield }` laziness is not modelled. `parse` returns the whole list of a row.
- Day3: the sums and the products of gear ratios are unbounded; Kotlin's Int arithmetic could wrap.
- Day3: `Value` of a symbol is 0. The lists it is summed over hold numbers only.
- Day3.OverlapShares: states symmetry only for non-empty ranges. With an empty range the Kotlin test is not symmetric, as `Day3.OverlapEmptyLopsided` shows.
- Day4: the score uses `2.0.pow(n - 1).toInt()` on doubles. It is modelled as an integer power of two, 0 for no match, capped at `Int.MAX_VALUE` as Kotlin's double-to-Int conversion caps it. The part 1 sum is unbounded.
- Day4: the `ArrayDeque` of (index, line) pairs is a sequence of indices into the lines.
- Day4.TotalCards: `totalScratchcards` is an Int counter that wraps past `Int.MAX_VALUE`. The model's count is unbounded. The cascade can double with each card, so the wrap is within reach of about thirty cards that each win every following card.
- Day4.Part2: the queue loop's counter is unbounded, for the same reason as `Day4.TotalCards`.
- Day4: the part 2 loop never ends, or `first()` throws, when the last card has a match. Both are modelled as `None`.
- Day5 `part2` is not modelled. Its step size comes from floating-point `pow`, `ceil` and `log10`, and its coarse-to-fine search is a heuristic without an exact result. The unchecked casts around it are left out with it.
- Day5: `associateWith` merges duplicate seeds into one entry. The model keeps every seed, which leaves the minimum unchanged.
- Day5: `ds + (preMap - ss)` and `ss + rl` are unbounded, where Kotlin's Long arithmetic could wrap.
- Day6: `buttonHoldDuration * travelTime` and the product in `main` are unbounded, where Kotlin's Long arithmetic could wrap. The loop variable's Long range is a plain integer range.
- Day7: the comparators are called only on hands whose first five characters are cards. Kotlin's `thenComparingInt` would evaluate them lazily and might not reach a malformed fifth card.
- Day7: the bid sums are unbounded, where Kotlin's Long arithmetic could wrap.
