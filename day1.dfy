/**
 * Day 1, "Trebuchet?!": the calibration value of a line is the two-digit number made of its first
 * and its last digit, where a digit is either a digit character or one of the words "one" to "nine".
 */
module Day1 {
  import opened Wrappers
  import opened Text
  import opened Seqs

  /** The keys of `validNumbers`, in the map's order; the word at index `k` stands for `k + 1`. */
  const Words: seq<string> := ["one", "two", "three", "four", "five", "six", "seven", "eight", "nine"]

  /** `validNumbers[key]!!.toString()` for the word at index `k`. */
  function WordDigit(k: int): (c: char)
    requires 0 <= k < 9
    ensures IsDigit(c) && DigitValue(c) == k + 1
  {
    (('1' as int) + k) as char
  }

  /** No word of the list starts with a digit character. */
  predicate LetterWords(words: seq<string>) {
    forall k :: 0 <= k < |words| ==> |words[k]| > 0 && !IsDigit(words[k][0])
  }

  lemma WordsAreLetterWords()
    ensures |Words| == 9 && LetterWords(Words)
  {
  }

  /** A digit found in the line: the digit as a character, and the index `indexOf`/`lastIndexOf` reports. */
  datatype Hit = Hit(digit: char, index: int)

  // ---------------------------------------------------------------- the script's computation

  /** The position of `firstOrNull { it.isDigit() }`, from `j` on. */
  function FirstDigitPos(line: string, j: nat): (r: Option<nat>)
    requires j <= |line|
    ensures r.Some? ==> j <= r.value < |line| && IsDigit(line[r.value])
    ensures r.Some? ==> forall i :: j <= i < r.value ==> !IsDigit(line[i])
    ensures r.None? ==> forall i :: j <= i < |line| ==> !IsDigit(line[i])
    decreases |line| - j
  {
    if j == |line| then None else if IsDigit(line[j]) then Some(j) else FirstDigitPos(line, j + 1)
  }

  /** The position of `lastOrNull { it.isDigit() }`, from `j` down. */
  function LastDigitPos(line: string, j: int): (r: Option<nat>)
    requires j < |line|
    ensures r.Some? ==> r.value <= j && IsDigit(line[r.value])
    ensures r.Some? ==> forall i :: r.value < i <= j ==> !IsDigit(line[i])
    ensures r.None? ==> forall i :: 0 <= i <= j ==> !IsDigit(line[i])
    decreases j + 1
  {
    if j < 0 then None else if IsDigit(line[j]) then Some(j) else LastDigitPos(line, j - 1)
  }

  /** `firstDigit`: the first digit character and `line.indexOf(it)`. */
  function FirstDigitHit(line: string): Option<Hit>
  {
    match FirstDigitPos(line, 0)
    case None => None
    case Some(p) =>
      assert OccursAt(line, [line[p]], p);
      Some(Hit(line[p], IndexOf(line, [line[p]]).value))
  }

  /** `lastDigit`: the last digit character and `line.lastIndexOf(it)`. */
  function LastDigitHit(line: string): Option<Hit>
  {
    match LastDigitPos(line, |line| - 1)
    case None => None
    case Some(p) =>
      assert OccursAt(line, [line[p]], p);
      Some(Hit(line[p], LastIndexOf(line, [line[p]]).value))
  }

  /** `validNumbers.keys.mapNotNull { ... line.indexOf(key) }` over the first `n` words. */
  function FirstWordHits(line: string, words: seq<string>, n: nat): seq<Hit>
    requires n <= |words| <= 9
  {
    if n == 0 then []
    else
      var w := words[n - 1];
      FirstWordHits(line, words, n - 1) + if IndexOf(line, w).Some? then [Hit(WordDigit(n - 1), IndexOf(line, w).value)] else []
  }

  /** `validNumbers.keys.mapNotNull { ... line.lastIndexOf(key) }` over the first `n` words. */
  function LastWordHits(line: string, words: seq<string>, n: nat): seq<Hit>
    requires n <= |words| <= 9
  {
    if n == 0 then []
    else
      var w := words[n - 1];
      LastWordHits(line, words, n - 1) +
        if IndexOf(line, w).Some? then
          assert OccursAt(line, w, IndexOf(line, w).value);
          [Hit(WordDigit(n - 1), LastIndexOf(line, w).value)]
        else []
  }

  /** `minByOrNull { it.second }`: the first hit with the least index. */
  function MinByIndex(hits: seq<Hit>): (r: Option<Hit>)
    ensures r.None? <==> hits == []
  {
    if hits == [] then None
    else if |hits| == 1 then Some(hits[0])
    else
      var m := MinByIndex(hits[..|hits| - 1]).value;
      Some(if hits[|hits| - 1].index < m.index then hits[|hits| - 1] else m)
  }

  /** `maxByOrNull { it.second }`: the first hit with the greatest index. */
  function MaxByIndex(hits: seq<Hit>): (r: Option<Hit>)
    ensures r.None? <==> hits == []
  {
    if hits == [] then None
    else if |hits| == 1 then Some(hits[0])
    else
      var m := MaxByIndex(hits[..|hits| - 1]).value;
      Some(if hits[|hits| - 1].index > m.index then hits[|hits| - 1] else m)
  }

  /** `listOf(firstDigit, firstWord).minByOrNull { it?.second ?: Int.MAX_VALUE }`, None when `!!` fails. */
  function EarlierOf(d: Option<Hit>, w: Option<Hit>): Option<Hit>
  {
    var kd := if d.Some? then d.value.index else IntMax;
    var kw := if w.Some? then w.value.index else IntMax;
    if kw < kd then w else d
  }

  /** `listOf(lastDigit, lastWord).maxByOrNull { it?.second ?: Int.MIN_VALUE }`, None when `!!` fails. */
  function LaterOf(d: Option<Hit>, w: Option<Hit>): Option<Hit>
  {
    var kd := if d.Some? then d.value.index else IntMin;
    var kw := if w.Some? then w.value.index else IntMin;
    if kw > kd then w else d
  }

  /** `first`, with `words` the keys of `validNumbers`. */
  function FirstHit(line: string, words: seq<string>): Option<Hit>
    requires |words| <= 9
  {
    EarlierOf(FirstDigitHit(line), MinByIndex(FirstWordHits(line, words, |words|)))
  }

  /** `last`, with `words` the keys of `validNumbers`. */
  function LastHit(line: string, words: seq<string>): Option<Hit>
    requires |words| <= 9
  {
    LaterOf(LastDigitHit(line), MaxByIndex(LastWordHits(line, words, |words|)))
  }

  lemma HitsAreDigits(line: string, words: seq<string>)
    requires |words| <= 9
    ensures FirstHit(line, words).Some? ==> IsDigit(FirstHit(line, words).value.digit)
    ensures LastHit(line, words).Some? ==> IsDigit(LastHit(line, words).value.digit)
  {
    FirstWordHitsDigits(line, words, |words|);
    LastWordHitsDigits(line, words, |words|);
    MinByIndexIn(FirstWordHits(line, words, |words|));
    MaxByIndexIn(LastWordHits(line, words, |words|));
  }

  /** `"$first$last".toInt()` with `words` the keys of `validNumbers`, None when there is no digit at all. */
  function LineValue(line: string, words: seq<string>): Option<int>
    requires |words| <= 9
  {
    match FirstHit(line, words)
    case None => None
    case Some(first) =>
      match LastHit(line, words)
      case None => None
      case Some(last) =>
        HitsAreDigits(line, words);
        TwoDigitsToInt(first.digit, last.digit);
        Some(ToInt([first.digit, last.digit]).value)
  }

  /** The value the `map` computes for one line. */
  function CalibrationValue(line: string): Option<int>
  {
    LineValue(line, Words)
  }

  /** `numbers.sum()` (None when some line has no digit and the script fails). */
  function Total(lines: seq<string>): Option<int>
  {
    match MapAll(lines, CalibrationValue)
    case None => None
    case Some(values) => Some(Sum(values))
  }

  // ---------------------------------------------------------------- facts about the hit lists

  lemma {:induction false} FirstWordHitsDigits(line: string, words: seq<string>, n: nat)
    requires n <= |words| <= 9
    ensures forall h :: h in FirstWordHits(line, words, n) ==> IsDigit(h.digit)
  {
    if n > 0 {
      FirstWordHitsDigits(line, words, n - 1);
    }
  }

  lemma {:induction false} LastWordHitsDigits(line: string, words: seq<string>, n: nat)
    requires n <= |words| <= 9
    ensures forall h :: h in LastWordHits(line, words, n) ==> IsDigit(h.digit)
  {
    if n > 0 {
      LastWordHitsDigits(line, words, n - 1);
    }
  }

  lemma {:induction false} MinByIndexIn(hits: seq<Hit>)
    ensures MinByIndex(hits).Some? ==> MinByIndex(hits).value in hits
  {
    if |hits| > 1 {
      MinByIndexIn(hits[..|hits| - 1]);
    }
  }

  lemma {:induction false} MaxByIndexIn(hits: seq<Hit>)
    ensures MaxByIndex(hits).Some? ==> MaxByIndex(hits).value in hits
  {
    if |hits| > 1 {
      MaxByIndexIn(hits[..|hits| - 1]);
    }
  }

  lemma MinByIndexSnoc(hs: seq<Hit>, t: Hit)
    ensures hs == [] ==> MinByIndex(hs + [t]) == Some(t)
    ensures hs != [] ==>
      MinByIndex(hs + [t]) == Some(if t.index < MinByIndex(hs).value.index then t else MinByIndex(hs).value)
  {
    assert (hs + [t])[..|hs|] == hs;
  }

  lemma MaxByIndexSnoc(hs: seq<Hit>, t: Hit)
    ensures hs == [] ==> MaxByIndex(hs + [t]) == Some(t)
    ensures hs != [] ==>
      MaxByIndex(hs + [t]) == Some(if t.index > MaxByIndex(hs).value.index then t else MaxByIndex(hs).value)
  {
    assert (hs + [t])[..|hs|] == hs;
  }

  // ---------------------------------------------------------------- the reference reading

  /** The first of `words[k..]` spelled at position `i`, as the digit it stands for (its index plus one). */
  function WordFrom(line: string, words: seq<string>, i: int, k: nat): (r: Option<nat>)
    requires k <= |words|
    ensures r.None? ==> forall k' :: k <= k' < |words| ==> !OccursAt(line, words[k'], i)
    ensures r.Some? ==> k + 1 <= r.value <= |words| && OccursAt(line, words[r.value - 1], i)
    ensures r.Some? ==> forall k' :: k <= k' < r.value - 1 ==> !OccursAt(line, words[k'], i)
    decreases |words| - k
  {
    if k == |words| then None
    else if OccursAt(line, words[k], i) then Some(k + 1)
    else WordFrom(line, words, i, k + 1)
  }

  /** The digit that starts at position `i`, written as a character or as one of `words`, if any. */
  function DigitAt(line: string, words: seq<string>, i: int): (r: Option<nat>)
    requires 0 <= i < |line|
    ensures r.Some? && |words| <= 9 ==> r.value <= 9
  {
    if IsDigit(line[i]) then Some(DigitValue(line[i])) else WordFrom(line, words, i, 0)
  }

  /** The leftmost position from `j` on where a digit starts. */
  function FirstSpelled(line: string, words: seq<string>, j: nat): (r: Option<nat>)
    requires j <= |line|
    ensures r.Some? ==> j <= r.value < |line| && DigitAt(line, words, r.value).Some?
    ensures r.Some? ==> forall i :: j <= i < r.value ==> DigitAt(line, words, i).None?
    ensures r.None? ==> forall i :: j <= i < |line| ==> DigitAt(line, words, i).None?
    decreases |line| - j
  {
    if j == |line| then None
    else if DigitAt(line, words, j).Some? then Some(j)
    else FirstSpelled(line, words, j + 1)
  }

  /** The rightmost position up to `j` where a digit starts. */
  function LastSpelled(line: string, words: seq<string>, j: int): (r: Option<nat>)
    requires j < |line|
    ensures r.Some? ==> r.value <= j && DigitAt(line, words, r.value).Some?
    ensures r.Some? ==> forall i :: r.value < i <= j ==> DigitAt(line, words, i).None?
    ensures r.None? ==> forall i :: 0 <= i <= j ==> DigitAt(line, words, i).None?
    decreases j + 1
  {
    if j < 0 then None
    else if DigitAt(line, words, j).Some? then Some(j)
    else LastSpelled(line, words, j - 1)
  }

  /** Ten times the leftmost digit spelled with `words` plus the rightmost one; None when there is none. */
  function SpelledValue(line: string, words: seq<string>): Option<int>
  {
    match FirstSpelled(line, words, 0)
    case None => None
    case Some(lo) =>
      var hi := LastSpelled(line, words, |line| - 1).value;
      Some(10 * DigitAt(line, words, lo).value + DigitAt(line, words, hi).value)
  }

  /** The reading of a line by its spelled digits, with the nine number words. */
  function ReferenceValue(line: string): Option<int>
  {
    SpelledValue(line, Words)
  }

  // ---------------------------------------------------------------- the computation meets the reference

  lemma OccursAtOne(line: string, c: char, q: int)
    requires OccursAt(line, [c], q)
    ensures 0 <= q < |line| && line[q] == c
  {
    assert line[q..q + 1][0] == line[q];
  }

  /** `firstDigit` is the leftmost digit character, at the index where it stands. */
  lemma FirstDigitHitSpec(line: string)
    ensures LeftmostDigitChar(line, FirstDigitHit(line))
  {
    var p := FirstDigitPos(line, 0);
    if p.Some? {
      assert OccursAt(line, [line[p.value]], p.value);
      var q := IndexOf(line, [line[p.value]]).value;
      OccursAtOne(line, line[p.value], q);
    }
  }

  /** `lastDigit` is the rightmost digit character, at the index where it stands. */
  lemma LastDigitHitSpec(line: string)
    ensures RightmostDigitChar(line, LastDigitHit(line))
  {
    var p := LastDigitPos(line, |line| - 1);
    if p.Some? {
      assert OccursAt(line, [line[p.value]], p.value);
      var q := LastIndexOf(line, [line[p.value]]).value;
      OccursAtOne(line, line[p.value], q);
    }
  }

  /** None of the first `n` words occurs in the line. */
  ghost predicate Absent(line: string, words: seq<string>, n: nat) {
    forall k, j :: 0 <= k < n && k < |words| ==> !OccursAt(line, words[k], j)
  }

  /** No occurrence of the first `n` words starts before `b`. */
  ghost predicate NoneBefore(line: string, words: seq<string>, n: nat, b: int) {
    forall k, j :: 0 <= k < n && k < |words| && OccursAt(line, words[k], j) ==> b <= j
  }

  /** No occurrence of the first `n` words starts after `b`. */
  ghost predicate NoneAfter(line: string, words: seq<string>, n: nat, b: int) {
    forall k, j :: 0 <= k < n && k < |words| && OccursAt(line, words[k], j) ==> j <= b
  }

  /** `words[k]` is the first word of the list that starts at `q`. */
  predicate FirstWordAt(line: string, words: seq<string>, k: int, q: int) {
    0 <= k < |words| && OccursAt(line, words[k], q) && forall k' :: 0 <= k' < k ==> !OccursAt(line, words[k'], q)
  }

  /**
   * `firstWord` over the first `n` words: None when none of them occurs; otherwise the least index
   * any of them starts at, with the first word (in map order) that starts there.
   */
  lemma {:induction false} FirstWordSpec(line: string, words: seq<string>, n: nat)
    requires n <= |words| <= 9
    ensures LeftmostWord(line, words, n, MinByIndex(FirstWordHits(line, words, n)))
  {
    if n > 0 {
      var hs := FirstWordHits(line, words, n - 1);
      var w := words[n - 1];
      FirstWordHitsStep(line, words, n, w);
      FirstWordSpec(line, words, n - 1);
      if IndexOf(line, w).None? {
        LeftmostSkip(line, words, n, w, MinByIndex(hs));
      } else {
        LeftmostSnoc(line, words, n, w, hs, Hit(WordDigit(n - 1), IndexOf(line, w).value));
      }
    }
  }

  /** One step of `FirstWordHits`: word `n - 1` adds its first occurrence, if it occurs at all. */
  lemma FirstWordHitsStep(line: string, words: seq<string>, n: nat, w: string)
    requires 0 < n <= |words| <= 9 && w == words[n - 1]
    ensures IndexOf(line, w).None? ==>
      FirstWordHits(line, words, n) == FirstWordHits(line, words, n - 1) && forall j :: !OccursAt(line, w, j)
    ensures IndexOf(line, w).Some? ==>
      OccursAt(line, w, IndexOf(line, w).value) &&
      (forall j :: OccursAt(line, w, j) ==> IndexOf(line, w).value <= j) &&
      FirstWordHits(line, words, n) ==
        FirstWordHits(line, words, n - 1) + [Hit(WordDigit(n - 1), IndexOf(line, w).value)]
  {
  }

  /** A word that does not occur leaves the leftmost occurrence of the words before it as it is. */
  lemma LeftmostSkip(line: string, words: seq<string>, n: nat, w: string, r: Option<Hit>)
    requires 0 < n <= |words| && w == words[n - 1] && LeftmostWord(line, words, n - 1, r)
    requires forall j :: !OccursAt(line, w, j)
    ensures LeftmostWord(line, words, n, r)
  {
  }

  /** The first occurrence of word `n - 1`, left of every occurrence of the words before it, wins. */
  lemma LeftmostNew(line: string, words: seq<string>, n: nat, w: string, prev: Option<Hit>, t: Hit)
    requires 0 < n <= |words| <= 9 && w == words[n - 1] && LeftmostWord(line, words, n - 1, prev)
    requires t.digit == WordDigit(n - 1) && (prev.Some? ==> t.index < prev.value.index)
    requires OccursAt(line, w, t.index)
    requires forall j :: OccursAt(line, w, j) ==> t.index <= j
    ensures LeftmostWord(line, words, n, Some(t))
  {
    assert NoneBefore(line, words, n - 1, t.index + 1);
  }

  /** A word whose occurrences are all right of (or at) the leftmost one so far does not change it. */
  lemma LeftmostOld(line: string, words: seq<string>, n: nat, w: string, m: Hit)
    requires 0 < n <= |words| && w == words[n - 1] && LeftmostWord(line, words, n - 1, Some(m))
    requires forall j :: OccursAt(line, w, j) ==> m.index <= j
    ensures LeftmostWord(line, words, n, Some(m))
  {
  }

  /** Adding the first occurrence of word `n - 1` to the hits keeps the leftmost-occurrence facts. */
  lemma LeftmostSnoc(line: string, words: seq<string>, n: nat, w: string, hs: seq<Hit>, t: Hit)
    requires 0 < n <= |words| <= 9 && w == words[n - 1] && LeftmostWord(line, words, n - 1, MinByIndex(hs))
    requires t.digit == WordDigit(n - 1) && OccursAt(line, w, t.index)
    requires forall j :: OccursAt(line, w, j) ==> t.index <= j
    ensures LeftmostWord(line, words, n, MinByIndex(hs + [t]))
  {
    MinByIndexSnoc(hs, t);
    if hs == [] || t.index < MinByIndex(hs).value.index {
      LeftmostNew(line, words, n, w, MinByIndex(hs), t);
    } else {
      var m := MinByIndex(hs).value;
      assert MinByIndex(hs) == Some(m);
      LeftmostOld(line, words, n, w, m);
    }
  }


  /**
   * `lastWord` over the first `n` words: None when none of them occurs; otherwise the greatest index
   * any of them starts at, with the first word (in map order) that starts there.
   */
  lemma {:induction false} LastWordSpec(line: string, words: seq<string>, n: nat)
    requires n <= |words| <= 9
    ensures RightmostWord(line, words, n, MaxByIndex(LastWordHits(line, words, n)))
  {
    if n > 0 {
      var hs := LastWordHits(line, words, n - 1);
      var w := words[n - 1];
      LastWordHitsStep(line, words, n, w);
      LastWordSpec(line, words, n - 1);
      if IndexOf(line, w).None? {
        RightmostSkip(line, words, n, w, MaxByIndex(hs));
      } else {
        RightmostSnoc(line, words, n, w, hs, Hit(WordDigit(n - 1), LastIndexOf(line, w).value));
      }
    }
  }

  /** One step of `LastWordHits`: word `n - 1` adds its last occurrence, if it occurs at all. */
  lemma LastWordHitsStep(line: string, words: seq<string>, n: nat, w: string)
    requires 0 < n <= |words| <= 9 && w == words[n - 1]
    ensures IndexOf(line, w).None? ==>
      LastWordHits(line, words, n) == LastWordHits(line, words, n - 1) && forall j :: !OccursAt(line, w, j)
    ensures IndexOf(line, w).Some? ==>
      LastIndexOf(line, w).Some? && OccursAt(line, w, LastIndexOf(line, w).value) &&
      (forall j :: OccursAt(line, w, j) ==> j <= LastIndexOf(line, w).value) &&
      LastWordHits(line, words, n) ==
        LastWordHits(line, words, n - 1) + [Hit(WordDigit(n - 1), LastIndexOf(line, w).value)]
  {
    if IndexOf(line, w).Some? {
      assert OccursAt(line, w, IndexOf(line, w).value);
    }
  }

  /** Adding the last occurrence of word `n - 1` to the hits keeps the rightmost-occurrence facts. */
  lemma RightmostSnoc(line: string, words: seq<string>, n: nat, w: string, hs: seq<Hit>, t: Hit)
    requires 0 < n <= |words| <= 9 && w == words[n - 1] && RightmostWord(line, words, n - 1, MaxByIndex(hs))
    requires t.digit == WordDigit(n - 1) && OccursAt(line, w, t.index)
    requires forall j :: OccursAt(line, w, j) ==> j <= t.index
    ensures RightmostWord(line, words, n, MaxByIndex(hs + [t]))
  {
    MaxByIndexSnoc(hs, t);
    if hs == [] || t.index > MaxByIndex(hs).value.index {
      RightmostNew(line, words, n, w, MaxByIndex(hs), t);
    } else {
      var m := MaxByIndex(hs).value;
      assert MaxByIndex(hs) == Some(m);
      RightmostOld(line, words, n, w, m);
    }
  }

  /** A word that does not occur leaves the rightmost occurrence of the words before it as it is. */
  lemma RightmostSkip(line: string, words: seq<string>, n: nat, w: string, r: Option<Hit>)
    requires 0 < n <= |words| && w == words[n - 1] && RightmostWord(line, words, n - 1, r)
    requires forall j :: !OccursAt(line, w, j)
    ensures RightmostWord(line, words, n, r)
  {
  }

  /** The last occurrence of word `n - 1`, right of every occurrence of the words before it, wins. */
  lemma RightmostNew(line: string, words: seq<string>, n: nat, w: string, prev: Option<Hit>, t: Hit)
    requires 0 < n <= |words| <= 9 && w == words[n - 1] && RightmostWord(line, words, n - 1, prev)
    requires t.digit == WordDigit(n - 1) && (prev.Some? ==> prev.value.index < t.index)
    requires OccursAt(line, w, t.index)
    requires forall j :: OccursAt(line, w, j) ==> j <= t.index
    ensures RightmostWord(line, words, n, Some(t))
  {
    assert NoneAfter(line, words, n - 1, t.index - 1);
  }

  /** A word whose occurrences are all left of (or at) the rightmost one so far does not change it. */
  lemma RightmostOld(line: string, words: seq<string>, n: nat, w: string, m: Hit)
    requires 0 < n <= |words| && w == words[n - 1] && RightmostWord(line, words, n - 1, Some(m))
    requires forall j :: OccursAt(line, w, j) ==> j <= m.index
    ensures RightmostWord(line, words, n, Some(m))
  {
  }


  /** A word never starts where a digit character stands. */
  lemma WordNotAtDigit(line: string, words: seq<string>, k: int, j: int)
    requires LetterWords(words) && FirstWordAt(line, words, k, j)
    ensures 0 <= j < |line| && !IsDigit(line[j])
  {
    assert line[j..j + |words[k]|][0] == line[j];
  }

  lemma {:induction false} NoWordFrom(line: string, words: seq<string>, i: int, k: nat)
    requires k <= |words|
    requires forall k' :: k <= k' < |words| ==> !OccursAt(line, words[k'], i)
    ensures WordFrom(line, words, i, k).None?
    decreases |words| - k
  {
    if k < |words| {
      NoWordFrom(line, words, i, k + 1);
    }
  }

  /** No digit is spelled in `[lo, hi)` when no digit character stands and no word starts there. */
  lemma NothingSpelled(line: string, words: seq<string>, lo: int, hi: int)
    requires 0 <= lo && hi <= |line|
    requires forall i :: lo <= i < hi ==> !IsDigit(line[i])
    requires forall k, j :: 0 <= k < |words| && OccursAt(line, words[k], j) ==> j < lo || hi <= j
    ensures forall i :: lo <= i < hi ==> DigitAt(line, words, i).None?
  {
    forall i | lo <= i < hi
      ensures DigitAt(line, words, i).None?
    {
      NoWordFrom(line, words, i, 0);
    }
  }

  /** The first word of the list spelled at `q` gives the digit spelled there. */
  lemma WordDigitAt(line: string, words: seq<string>, q: int, k: int)
    requires LetterWords(words) && FirstWordAt(line, words, k, q)
    ensures 0 <= q < |line| && DigitAt(line, words, q) == Some(k + 1)
  {
    WordNotAtDigit(line, words, k, q);
  }

  /** The line spells no digit at all. */
  lemma NothingAnywhere(line: string, words: seq<string>)
    requires forall i :: 0 <= i < |line| ==> !IsDigit(line[i])
    requires Absent(line, words, |words|)
    ensures FirstSpelled(line, words, 0).None? && LastSpelled(line, words, |line| - 1).None?
  {
    NothingSpelled(line, words, 0, |line|);
  }

  /** A position that spells a digit, with nothing spelled before it, is the leftmost one. */
  lemma LeftmostAt(line: string, words: seq<string>, b: int)
    requires 0 <= b < |line| && DigitAt(line, words, b).Some?
    requires forall i :: 0 <= i < b ==> !IsDigit(line[i])
    requires NoneBefore(line, words, |words|, b)
    ensures FirstSpelled(line, words, 0) == Some(b)
  {
    NothingSpelled(line, words, 0, b);
  }

  /** A position that spells a digit, with nothing spelled after it, is the rightmost one. */
  lemma RightmostAt(line: string, words: seq<string>, b: int)
    requires 0 <= b < |line| && DigitAt(line, words, b).Some?
    requires forall i :: b < i < |line| ==> !IsDigit(line[i])
    requires NoneAfter(line, words, |words|, b)
    ensures LastSpelled(line, words, |line| - 1) == Some(b)
  {
    NothingSpelled(line, words, b + 1, |line|);
  }

  /** The facts `FirstDigitHitSpec` states about `firstDigit`. */
  predicate LeftmostDigitChar(line: string, d: Option<Hit>) {
    (d.None? ==> forall i :: 0 <= i < |line| ==> !IsDigit(line[i])) &&
    (d.Some? ==>
      0 <= d.value.index < |line| && d.value.digit == line[d.value.index] && IsDigit(d.value.digit) &&
      forall i :: 0 <= i < d.value.index ==> !IsDigit(line[i]))
  }

  /** The facts `LastDigitHitSpec` states about `lastDigit`. */
  predicate RightmostDigitChar(line: string, d: Option<Hit>) {
    (d.None? ==> forall i :: 0 <= i < |line| ==> !IsDigit(line[i])) &&
    (d.Some? ==>
      0 <= d.value.index < |line| && d.value.digit == line[d.value.index] && IsDigit(d.value.digit) &&
      forall i :: d.value.index < i < |line| ==> !IsDigit(line[i]))
  }

  /** The facts `FirstWordSpec` states about `firstWord`. */
  ghost predicate LeftmostWord(line: string, words: seq<string>, n: nat, w: Option<Hit>) {
    (w.None? ==> Absent(line, words, n)) &&
    (w.Some? ==>
      IsDigit(w.value.digit) && 1 <= DigitValue(w.value.digit) <= n &&
      FirstWordAt(line, words, DigitValue(w.value.digit) - 1, w.value.index) &&
      NoneBefore(line, words, n, w.value.index))
  }

  /** The facts `LastWordSpec` states about `lastWord`. */
  ghost predicate RightmostWord(line: string, words: seq<string>, n: nat, w: Option<Hit>) {
    (w.None? ==> Absent(line, words, n)) &&
    (w.Some? ==>
      IsDigit(w.value.digit) && 1 <= DigitValue(w.value.digit) <= n &&
      FirstWordAt(line, words, DigitValue(w.value.digit) - 1, w.value.index) &&
      NoneAfter(line, words, n, w.value.index))
  }

  /** `h` stands for an occurrence of one of the first `n` words that no occurrence of them follows. */
  ghost predicate RightmostWordAt(line: string, words: seq<string>, n: nat, h: Hit) {
    IsDigit(h.digit) && 1 <= DigitValue(h.digit) <= n &&
    FirstWordAt(line, words, DigitValue(h.digit) - 1, h.index) && NoneAfter(line, words, n, h.index)
  }

  /** A position right of the rightmost digit character, or at it, that holds none is right of it. */
  lemma NoDigitCharAfter(line: string, d: Option<Hit>, q: int)
    requires RightmostDigitChar(line, d) && 0 <= q < |line| && !IsDigit(line[q])
    requires !(d.Some? && d.value.index > q)
    ensures d.Some? ==> d.value.index < q
    ensures forall i :: q < i < |line| ==> !IsDigit(line[i])
  {
  }

  /** The rightmost word occurrence is not at a digit character. */
  lemma RightmostWordNotAtDigit(line: string, words: seq<string>, h: Hit)
    requires LetterWords(words) && RightmostWordAt(line, words, |words|, h)
    ensures 0 <= h.index < |line| && !IsDigit(line[h.index])
  {
    WordNotAtDigit(line, words, DigitValue(h.digit) - 1, h.index);
  }

  /** What `RightmostWord` says about a word occurrence that was found. */
  lemma RightmostWordFacts(line: string, words: seq<string>, n: nat, w: Option<Hit>)
    requires RightmostWord(line, words, n, w) && w.Some?
    ensures RightmostWordAt(line, words, n, w.value)
  {
  }

  /** The leftmost digit character `d` and the leftmost word occurrence `w` give the leftmost spelled digit. */
  lemma EarlierOfIsLeftmost(line: string, words: seq<string>, d: Option<Hit>, w: Option<Hit>)
    requires |line| <= IntMax && LetterWords(words)
    requires LeftmostDigitChar(line, d) && LeftmostWord(line, words, |words|, w)
    ensures EarlierOf(d, w).None? <==> FirstSpelled(line, words, 0).None?
    ensures EarlierOf(d, w).Some? ==>
      EarlierOf(d, w).value.index == FirstSpelled(line, words, 0).value && IsDigit(EarlierOf(d, w).value.digit) &&
      DigitValue(EarlierOf(d, w).value.digit) == DigitAt(line, words, FirstSpelled(line, words, 0).value).value
  {
    if d.None? && w.None? {
      NothingAnywhere(line, words);
    } else if w.None? || (d.Some? && d.value.index < w.value.index) {
      assert EarlierOf(d, w) == d;
      LeftmostAt(line, words, d.value.index);
    } else {
      var q := w.value.index;
      WordNotAtDigit(line, words, DigitValue(w.value.digit) - 1, q);
      assert d.Some? ==> q < d.value.index;
      assert EarlierOf(d, w) == w;
      LeftmostWordHit(line, words, w.value);
    }
  }

  /** The leftmost word occurrence, when no digit character comes before it, is the leftmost spelled digit. */
  lemma LeftmostWordHit(line: string, words: seq<string>, h: Hit)
    requires LetterWords(words) && IsDigit(h.digit) && 1 <= DigitValue(h.digit) <= |words|
    requires FirstWordAt(line, words, DigitValue(h.digit) - 1, h.index)
    requires NoneBefore(line, words, |words|, h.index)
    requires forall i :: 0 <= i < h.index ==> !IsDigit(line[i])
    ensures FirstSpelled(line, words, 0) == Some(h.index)
    ensures DigitAt(line, words, h.index) == Some(DigitValue(h.digit))
  {
    WordDigitAt(line, words, h.index, DigitValue(h.digit) - 1);
    LeftmostAt(line, words, h.index);
  }

  /** The rightmost digit character `d` and the rightmost word occurrence `w` give the rightmost spelled digit. */
  lemma LaterOfIsRightmost(line: string, words: seq<string>, d: Option<Hit>, w: Option<Hit>)
    requires LetterWords(words)
    requires RightmostDigitChar(line, d) && RightmostWord(line, words, |words|, w)
    ensures LaterOf(d, w).None? <==> LastSpelled(line, words, |line| - 1).None?
    ensures LaterOf(d, w).Some? ==>
      LaterOf(d, w).value.index == LastSpelled(line, words, |line| - 1).value && IsDigit(LaterOf(d, w).value.digit) &&
      DigitValue(LaterOf(d, w).value.digit) == DigitAt(line, words, LastSpelled(line, words, |line| - 1).value).value
  {
    if d.None? && w.None? {
      NothingAnywhere(line, words);
    } else if w.None? || (d.Some? && d.value.index > w.value.index) {
      LaterIsDigitChar(line, words, d, w);
    } else {
      LaterIsWord(line, words, d, w);
    }
  }

  /** The case of `LaterOfIsRightmost` where the digit character comes last. */
  lemma LaterIsDigitChar(line: string, words: seq<string>, d: Option<Hit>, w: Option<Hit>)
    requires RightmostDigitChar(line, d) && RightmostWord(line, words, |words|, w)
    requires d.Some? && (w.None? || d.value.index > w.value.index)
    ensures LaterOf(d, w).None? <==> LastSpelled(line, words, |line| - 1).None?
    ensures LaterOf(d, w).Some? ==>
      LaterOf(d, w).value.index == LastSpelled(line, words, |line| - 1).value && IsDigit(LaterOf(d, w).value.digit) &&
      DigitValue(LaterOf(d, w).value.digit) == DigitAt(line, words, LastSpelled(line, words, |line| - 1).value).value
  {
    assert LaterOf(d, w) == d;
    RightmostAt(line, words, d.value.index);
  }

  /** The case of `LaterOfIsRightmost` where the word comes last. */
  lemma LaterIsWord(line: string, words: seq<string>, d: Option<Hit>, w: Option<Hit>)
    requires LetterWords(words)
    requires RightmostDigitChar(line, d) && RightmostWord(line, words, |words|, w)
    requires w.Some? && !(d.Some? && d.value.index > w.value.index)
    ensures LaterOf(d, w).None? <==> LastSpelled(line, words, |line| - 1).None?
    ensures LaterOf(d, w).Some? ==>
      LaterOf(d, w).value.index == LastSpelled(line, words, |line| - 1).value && IsDigit(LaterOf(d, w).value.digit) &&
      DigitValue(LaterOf(d, w).value.digit) == DigitAt(line, words, LastSpelled(line, words, |line| - 1).value).value
  {
    var q := w.value.index;
    RightmostWordFacts(line, words, |words|, w);
    RightmostWordNotAtDigit(line, words, w.value);
    NoDigitCharAfter(line, d, q);
    assert LaterOf(d, w) == w;
    RightmostWordHit(line, words, w.value);
  }

  /** The rightmost word occurrence, when no digit character comes after it, is the rightmost spelled digit. */
  lemma RightmostWordHit(line: string, words: seq<string>, h: Hit)
    requires LetterWords(words) && RightmostWordAt(line, words, |words|, h)
    requires forall i :: h.index < i < |line| ==> !IsDigit(line[i])
    ensures LastSpelled(line, words, |line| - 1) == Some(h.index)
    ensures DigitAt(line, words, h.index) == Some(DigitValue(h.digit))
  {
    WordDigitAt(line, words, h.index, DigitValue(h.digit) - 1);
    RightmostAt(line, words, h.index);
  }

  // ---------------------------------------------------------------- properties of a line's value

  /** `first` is the digit at the leftmost position that spells one. */
  lemma FirstHitIsLeftmost(line: string, words: seq<string>)
    requires |line| <= IntMax && |words| <= 9 && LetterWords(words)
    ensures FirstHit(line, words).None? <==> FirstSpelled(line, words, 0).None?
    ensures FirstHit(line, words).Some? ==>
      FirstHit(line, words).value.index == FirstSpelled(line, words, 0).value &&
      IsDigit(FirstHit(line, words).value.digit) &&
      DigitValue(FirstHit(line, words).value.digit) == DigitAt(line, words, FirstSpelled(line, words, 0).value).value
  {
    FirstDigitHitSpec(line);
    FirstWordSpec(line, words, |words|);
    EarlierOfIsLeftmost(line, words, FirstDigitHit(line), MinByIndex(FirstWordHits(line, words, |words|)));
  }

  /** `last` is the digit at the rightmost position that spells one. */
  lemma LastHitIsRightmost(line: string, words: seq<string>)
    requires |words| <= 9 && LetterWords(words)
    ensures LastHit(line, words).None? <==> LastSpelled(line, words, |line| - 1).None?
    ensures LastHit(line, words).Some? ==>
      LastHit(line, words).value.index == LastSpelled(line, words, |line| - 1).value &&
      IsDigit(LastHit(line, words).value.digit) &&
      DigitValue(LastHit(line, words).value.digit) == DigitAt(line, words, LastSpelled(line, words, |line| - 1).value).value
  {
    LastDigitHitSpec(line);
    LastWordSpec(line, words, |words|);
    LaterOfIsRightmost(line, words, LastDigitHit(line), MaxByIndex(LastWordHits(line, words, |words|)));
  }

  /**
   * A line's value is ten times the digit at the leftmost position that spells one plus the digit at
   * the rightmost such position; a line that spells no digit fails.
   */
  lemma CalibrationValueIsReference(line: string)
    requires |line| <= IntMax
    ensures CalibrationValue(line) == ReferenceValue(line)
  {
    WordsAreLetterWords();
    LineValueIsSpelledValue(line, Words);
  }

  /** `CalibrationValueIsReference` for any list of at most nine words that start with letters. */
  lemma LineValueIsSpelledValue(line: string, words: seq<string>)
    requires |line| <= IntMax && |words| <= 9 && LetterWords(words)
    ensures LineValue(line, words) == SpelledValue(line, words)
  {
    FirstHitIsLeftmost(line, words);
    LastHitIsRightmost(line, words);
    match FirstHit(line, words)
    case None =>
    case Some(first) =>
      var lo := FirstSpelled(line, words, 0).value;
      assert DigitAt(line, words, lo).Some?;
      assert LastSpelled(line, words, |line| - 1).Some?;
      var last := LastHit(line, words).value;
      TwoDigitsToInt(first.digit, last.digit);
  }

  /** The script fails on a line exactly when no position of it spells a digit. */
  lemma CalibrationFailsWithoutDigits(line: string)
    requires |line| <= IntMax
    ensures CalibrationValue(line).None? <==> forall i :: 0 <= i < |line| ==> DigitAt(line, Words, i).None?
  {
    CalibrationValueIsReference(line);
  }

  /** Every value is a number of at most two digits. */
  lemma CalibrationValueRange(line: string)
    requires |line| <= IntMax
    ensures CalibrationValue(line).Some? ==> 0 <= CalibrationValue(line).value <= 99
  {
    WordsAreLetterWords();
    CalibrationValueIsReference(line);
  }

  /** A line that spells a digit at one position only reads it twice. */
  lemma SingleDigitTwice(line: string, p: int)
    requires |line| <= IntMax && 0 <= p < |line| && DigitAt(line, Words, p).Some?
    requires forall i :: 0 <= i < |line| && i != p ==> DigitAt(line, Words, i).None?
    ensures CalibrationValue(line) == Some(11 * DigitAt(line, Words, p).value)
  {
    CalibrationValueIsReference(line);
    OnlySpelledValue(line, Words, p);
  }

  lemma OnlySpelledValue(line: string, words: seq<string>, p: int)
    requires 0 <= p < |line| && DigitAt(line, words, p).Some?
    requires forall i :: 0 <= i < |line| && i != p ==> DigitAt(line, words, i).None?
    ensures SpelledValue(line, words) == Some(11 * DigitAt(line, words, p).value)
  {
    OnlySpelledAt(line, words, p);
  }

  /** A position that is the only one spelling a digit is both the leftmost and the rightmost one. */
  lemma OnlySpelledAt(line: string, words: seq<string>, p: int)
    requires 0 <= p < |line| && DigitAt(line, words, p).Some?
    requires forall i :: 0 <= i < |line| && i != p ==> DigitAt(line, words, i).None?
    ensures FirstSpelled(line, words, 0) == Some(p) && LastSpelled(line, words, |line| - 1) == Some(p)
  {
  }

  /** Overlapping words are read both ways: the first word found from the left, the last from the right. */
  lemma EightTwo()
    ensures CalibrationValue("eightwo") == Some(82)
  {
    EightTwoReference();
    CalibrationValueIsReference("eightwo");
  }

  lemma EightTwoReference()
    ensures ReferenceValue("eightwo") == Some(82)
  {
    EightTwoFirst();
    EightTwoLast();
  }

  /** In "eightwo" the leftmost spelled digit is the "eight" at 0. */
  lemma EightTwoFirst()
    ensures FirstSpelled("eightwo", Words, 0) == Some(0) && DigitAt("eightwo", Words, 0) == Some(8)
  {
    var line := "eightwo";
    WordsAreLetterWords();
    assert line[0..5] == Words[7];
    forall k | 0 <= k < 7
      ensures !OccursAt(line, Words[k], 0)
    {
      NotOccursAt(line, Words[k], 0);
    }
    WordDigitAt(line, Words, 0, 7);
  }

  /** In "eightwo" the rightmost spelled digit is the "two" at 4, which shares its "t" with "eight". */
  lemma EightTwoLast()
    ensures LastSpelled("eightwo", Words, 6) == Some(4) && DigitAt("eightwo", Words, 4) == Some(2)
  {
    var line := "eightwo";
    WordsAreLetterWords();
    assert line[4..7] == Words[1];
    NotOccursAt(line, Words[0], 4);
    WordDigitAt(line, Words, 4, 1);
    forall k, j | 0 <= k < 9 && 4 < j
      ensures !OccursAt(line, Words[k], j)
    {
      NotOccursAt(line, Words[k], j);
    }
    RightmostAt(line, Words, 4);
  }


  /** "zero" is not one of the number words. */
  lemma ZeroIsNotADigit()
    ensures CalibrationValue("zero").None?
  {
    ZeroReference();
    CalibrationValueIsReference("zero");
  }

  lemma ZeroReference()
    ensures ReferenceValue("zero").None?
  {
    var line := "zero";
    forall k, j | 0 <= k < 9
      ensures !OccursAt(line, Words[k], j)
    {
      NotOccursAt(line, Words[k], j);
    }
    NothingAnywhere(line, Words);
  }

  /** A word does not start where it does not fit or where its first letter is not. */
  lemma NotOccursAt(s: string, d: string, i: int)
    requires |d| > 0
    requires i < 0 || i + |d| > |s| || s[i] != d[0]
    ensures !OccursAt(s, d, i)
  {
    if 0 <= i && i + |d| <= |s| {
      assert s[i..i + |d|][0] == s[i];
    }
  }

  /** The total is defined exactly when every line has a value, and then it is the sum of the values. */
  lemma TotalIsSumOfValues(lines: seq<string>)
    ensures Total(lines).Some? <==> forall i :: 0 <= i < |lines| ==> CalibrationValue(lines[i]).Some?
    ensures Total(lines).Some? ==>
      Total(lines).value == Sum(seq(|lines|, i requires 0 <= i < |lines| => CalibrationValue(lines[i]).value))
  {
    MapAllPerElement(lines, CalibrationValue);
    if MapAll(lines, CalibrationValue).Some? {
      assert MapAll(lines, CalibrationValue).value ==
        seq(|lines|, i requires 0 <= i < |lines| => CalibrationValue(lines[i]).value);
    }
  }
}
