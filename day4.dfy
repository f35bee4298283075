/**
 * Day 4, "Scratchcards": each card lists winning numbers and the numbers one has, separated by '|'.
 * Part 1 scores a card 2^(n-1) for n matching numbers; in part 2 a card with n matches wins one copy
 * of each of the next n cards, and the answer is how many cards are processed in all.
 */
module Day4 {
  import opened Wrappers
  import opened Text
  import opened Seqs

  // ---------------------------------------------------------------- parsing

  /** `filter { it.isNotEmpty() }`. */
  function NonEmpty(xs: seq<string>): seq<string>
  {
    if xs == [] then [] else (if xs[0] == [] then [] else [xs[0]]) + NonEmpty(xs[1..])
  }

  /** The filter keeps exactly the non-empty tokens. */
  lemma {:induction false} NonEmptyFacts(xs: seq<string>)
    ensures forall k :: 0 <= k < |NonEmpty(xs)| ==> NonEmpty(xs)[k] != [] && NonEmpty(xs)[k] in xs
    ensures forall k :: 0 <= k < |xs| && xs[k] != [] ==> xs[k] in NonEmpty(xs)
  {
    if xs != [] {
      NonEmptyFacts(xs[1..]);
      assert forall k :: 1 <= k < |xs| ==> xs[k] == xs[1..][k - 1];
    }
  }

  /** Filtering tokens that are all non-empty keeps every one of them, in order. */
  lemma {:induction false} NonEmptyKeepsAll(xs: seq<string>)
    requires forall k :: 0 <= k < |xs| ==> xs[k] != []
    ensures NonEmpty(xs) == xs
  {
    if xs != [] {
      NonEmptyKeepsAll(xs[1..]);
    }
  }

  /** `s.trim().split(" ").filter { it.isNotEmpty() }.map { it.toInt() }`. */
  function Numbers(s: string): Option<seq<int>>
  {
    MapAll(NonEmpty(Split(Trim(s), " ")), ToInt)
  }

  /** `parseLine`: the numbers before and after '|' in the text after ':'; None where Kotlin throws. */
  function ParseLine(line: string): Option<(seq<int>, seq<int>)>
  {
    var parts := Split(line, ":");
    if |parts| < 2 then None
    else
      var numbers := Split(parts[1], "|");
      if |numbers| < 2 then None
      else
        match (Numbers(numbers[0]), Numbers(numbers[1]))
        case (Some(before), Some(after)) => Some((before, after))
        case _ => None
  }

  /** Numbers written in decimal and separated by single spaces read back. */
  lemma NumbersOfNumerals(nums: seq<nat>)
    requires nums != []
    requires forall i :: 0 <= i < |nums| ==> nums[i] <= IntMax
    ensures Numbers(JoinWith(Numerals(nums), " ")) == Some(nums)
  {
    var ns := Numerals(nums);
    JoinedNumeralsTrimmed(nums);
    NumeralsAvoid(nums, ' ');
    SplitJoinInverse(ns, ' ');
    assert Split(Trim(JoinWith(ns, " ")), " ") == ns;
    NonEmptyKeepsAll(ns);
    NumeralsToInt(nums);
  }

  /**
   * Numbers separated by runs of spaces (as card lines pad them) leave empty tokens between them, which
   * the filter drops: what remains is read with `toInt`, token by token.
   */
  lemma NumbersDropEmptyTokens(parts: seq<string>)
    requires |parts| >= 1 && parts[0] != [] && parts[|parts| - 1] != []
    requires forall k :: 0 <= k < |parts| ==> AllDigits(parts[k])
    ensures Numbers(JoinWith(parts, " ")) == MapAll(NonEmpty(parts), ToInt)
  {
    var j := JoinWith(parts, " ");
    var last := parts[|parts| - 1];
    JoinWithEnds(parts, " ");
    assert j[0] == j[..|parts[0]|][0] == parts[0][0];
    assert j[|j| - 1] == j[|j| - |last|..][|last| - 1] == last[|last| - 1];
    TrimNoOp(j);
    forall k | 0 <= k < |parts|
      ensures ' ' !in parts[k]
    {
      assert forall i :: 0 <= i < |parts[k]| ==> parts[k][i] != ' ';
    }
    SplitJoinInverse(parts, ' ');
  }

  /** A card written as a title, ':', the winning numbers, '|' and the numbers one has parses back. */
  lemma ParseLineRoundTrip(title: string, winning: seq<nat>, have: seq<nat>)
    requires ':' !in title && winning != [] && have != []
    requires forall i :: 0 <= i < |winning| ==> winning[i] <= IntMax
    requires forall i :: 0 <= i < |have| ==> have[i] <= IntMax
    ensures ParseLine(title + ":" + JoinWith(Numerals(winning), " ") + "|" + JoinWith(Numerals(have), " "))
      == Some((winning, have))
  {
    var a := JoinWith(Numerals(winning), " ");
    var b := JoinWith(Numerals(have), " ");
    var line := title + ":" + a + "|" + b;
    JoinedFree(winning, ':');
    JoinedFree(winning, '|');
    JoinedFree(have, ':');
    JoinedFree(have, '|');
    assert ':' !in a + "|" + b;
    assert line == title + ":" + (a + "|" + b);
    SplitAtFirst(title, ":", a + "|" + b);
    assert Split(line, ":") == [title, a + "|" + b];
    SplitAtFirst(a, "|", b);
    assert Split(a + "|" + b, "|") == [a, b];
    NumbersOfNumerals(winning);
    NumbersOfNumerals(have);
  }

  /** Numerals joined by spaces hold no other non-digit. */
  lemma JoinedFree(nums: seq<nat>, c: char)
    requires nums != [] && !IsDigit(c) && c != ' '
    ensures c !in JoinWith(Numerals(nums), " ")
  {
    NumeralsAvoid(nums, c);
    NoCharInJoin(Numerals(nums), ' ', c);
  }

  // ---------------------------------------------------------------- matches and part 1

  function SetOf(xs: seq<int>): set<int> {
    set x | x in xs
  }

  /** `numbersBefore.intersect(numbersAfter).size`. */
  function MatchCount(before: seq<int>, after: seq<int>): nat
  {
    |SetOf(before) * SetOf(after)|
  }

  /** A list has at most as many distinct elements as entries. */
  lemma {:induction false} SetOfCard(xs: seq<int>)
    ensures |SetOf(xs)| <= |xs|
  {
    if xs != [] {
      var n := |xs| - 1;
      SetOfCard(xs[..n]);
      assert SetOf(xs) == SetOf(xs[..n]) + {xs[n]} by {
        assert xs == xs[..n] + [xs[n]];
      }
    }
  }

  /** The match count never exceeds the distinct numbers on either side, and does not depend on the side. */
  lemma MatchCountBounds(before: seq<int>, after: seq<int>)
    ensures MatchCount(before, after) <= |SetOf(before)| <= |before|
    ensures MatchCount(before, after) <= |SetOf(after)| <= |after|
    ensures MatchCount(before, after) == MatchCount(after, before)
  {
    SubsetCard(SetOf(before) * SetOf(after), SetOf(before));
    SubsetCard(SetOf(before) * SetOf(after), SetOf(after));
    SetOfCard(before);
    SetOfCard(after);
    assert SetOf(before) * SetOf(after) == SetOf(after) * SetOf(before);
  }

  /** A number repeated on the card counts once. */
  lemma MatchCountDuplicate(before: seq<int>, after: seq<int>, x: int)
    requires x in before
    ensures MatchCount(before + [x], after) == MatchCount(before, after)
  {
    assert SetOf(before + [x]) == SetOf(before);
  }

  /** A number in both lists is one match more than the lists without it. */
  lemma MatchCountNew(before: seq<int>, after: seq<int>, x: int)
    requires x !in before && x in after
    ensures MatchCount(before + [x], after) == MatchCount(before, after) + 1
  {
    assert SetOf(before + [x]) * SetOf(after) == SetOf(before) * SetOf(after) + {x};
  }

  /** The matches on one line, None when the line does not parse. */
  function Matches(line: string): Option<nat>
  {
    match ParseLine(line)
    case None => None
    case Some((before, after)) => Some(MatchCount(before, after))
  }

  function Pow2(n: nat): (p: nat)
    ensures p >= 1
  {
    if n == 0 then 1 else 2 * Pow2(n - 1)
  }

  /** `2.0.pow(n - 1).toInt()`: 0 for no match (0.5 truncated), else 2^(n-1), saturated at Int.MAX_VALUE. */
  function Score(n: nat): int
  {
    if n == 0 then 0
    else if Pow2(n - 1) > IntMax then IntMax
    else Pow2(n - 1)
  }

  /**
   * No match scores 0, one scores 1, and each further match doubles the score until 2^(n-1) passes
   * Int.MAX_VALUE, where Kotlin's conversion of the double stops.
   */
  lemma ScoreDoubles(n: nat)
    ensures Score(0) == 0 && Score(1) == 1
    ensures n >= 1 && Pow2(n - 1) <= IntMax ==> Score(n) == Pow2(n - 1)
    ensures n >= 1 && Pow2(n) <= IntMax ==> Score(n + 1) == 2 * Score(n)
    ensures n >= 1 && Pow2(n - 1) > IntMax ==> Score(n) == IntMax && Score(n + 1) == IntMax
    ensures 0 <= Score(n) <= IntMax
  {
  }

  /** The score of one line. */
  function CardScore(line: string): Option<int>
  {
    match Matches(line)
    case None => None
    case Some(n) => Some(Score(n))
  }

  /** Part 1: the sum of the card scores, None when a line does not parse. */
  function TotalScore(lines: seq<string>): Option<int>
  {
    match MapAll(lines, CardScore)
    case None => None
    case Some(scores) => Some(Sum(scores))
  }

  /** `part1` over the lines of the file. */
  method Part1(lines: seq<string>) returns (result: Option<int>)
    ensures result == TotalScore(lines)
  {
    var resultList: seq<int> := [];
    for i := 0 to |lines|
      invariant MapAll(lines[..i], CardScore) == Some(resultList)
    {
      MapAllSnoc(lines, i, CardScore);
      var parsed := ParseLine(lines[i]);
      if parsed.None? {
        assert CardScore(lines[i]).None?;
        MapAllPrefixFails(lines, i + 1, CardScore);
        return None;
      }
      var matchingNumbers := MatchCount(parsed.value.0, parsed.value.1);
      var multiplier := Score(matchingNumbers);
      assert CardScore(lines[i]) == Some(multiplier);
      resultList := resultList + [multiplier];
    }
    assert lines[..|lines|] == lines;
    result := Some(Sum(resultList));
  }

  /** Every card scores at least 0, so the total is at least 0; with no match anywhere it is 0. */
  lemma {:induction false} TotalScoreNonNegative(lines: seq<string>)
    ensures TotalScore(lines).Some? ==> TotalScore(lines).value >= 0
    ensures TotalScore(lines).Some? && (forall i :: 0 <= i < |lines| ==> Matches(lines[i]) == Some(0)) ==>
      TotalScore(lines).value == 0
  {
    if TotalScore(lines).Some? {
      MapAllPerElement(lines, CardScore);
      var scores := MapAll(lines, CardScore).value;
      forall i | 0 <= i < |scores| ensures scores[i] >= 0 {
        ScoreDoubles(Matches(lines[i]).value);
      }
      SumNonNegative(scores);
      if forall i :: 0 <= i < |lines| ==> Matches(lines[i]) == Some(0) {
        forall i | 0 <= i < |scores| ensures scores[i] == 0 {
          assert Matches(lines[i]) == Some(0);
        }
        SumOfZeros(scores);
      }
    }
  }

  // ---------------------------------------------------------------- part 2

  /** The match count of every card; a line that does not parse never gets that far in the cascade. */
  function MatchTable(lines: seq<string>): (ms: seq<nat>)
    ensures |ms| == |lines|
  {
    seq(|lines|, k requires 0 <= k < |lines| => match Matches(lines[k]) case None => 0 case Some(n) => n)
  }

  /** The cards processed for one copy of card `i`: itself and the cascades of the copies it wins. */
  function Cascade(ms: seq<nat>, i: nat): (c: nat)
    requires i < |ms|
    ensures c >= 1
    decreases |ms| - i, 1, 0
  {
    1 + Copies(ms, i + 1, ms[i])
  }

  /** The cascades of cards `from` .. `from + count - 1`, skipping indices past the last card. */
  function Copies(ms: seq<nat>, from: nat, count: nat): nat
    requires from <= |ms|
    decreases |ms| + 1 - from, 0, count
  {
    if count == 0 then 0
    else Copies(ms, from, count - 1) + (if from + count - 1 < |ms| then Cascade(ms, from + count - 1) else 0)
  }

  /** The cards still to be processed for the queued entries. */
  function Weight(ms: seq<nat>, queue: seq<nat>): nat
    requires forall k :: 0 <= k < |queue| ==> queue[k] < |ms|
  {
    if queue == [] then 0 else Cascade(ms, queue[0]) + Weight(ms, queue[1..])
  }

  /**
   * Part 2 as the doc comment describes it: every card contributes its cascade. The Kotlin loop throws
   * or runs forever (None here) when a line does not parse or when the last card has a match.
   */
  function TotalCards(lines: seq<string>): Option<nat>
  {
    match MapAll(lines, Matches)
    case None => None
    case Some(ms) => if |ms| > 0 && ms[|ms| - 1] > 0 then None else Some(Copies(ms, 0, |ms|))
  }

  lemma {:induction false} WeightAppend(ms: seq<nat>, a: seq<nat>, b: seq<nat>)
    requires forall k :: 0 <= k < |a| ==> a[k] < |ms|
    requires forall k :: 0 <= k < |b| ==> b[k] < |ms|
    ensures Weight(ms, a + b) == Weight(ms, a) + Weight(ms, b)
  {
    if a == [] {
      assert a + b == b;
    } else {
      assert (a + b)[1..] == a[1..] + b;
      WeightAppend(ms, a[1..], b);
    }
  }

  /** The initial queue holds every card once. */
  lemma {:induction false} WeightOfAll(ms: seq<nat>, k: nat)
    requires k <= |ms|
    ensures Weight(ms, seq(k, i => i)) == Copies(ms, 0, k)
  {
    if k > 0 {
      var front: seq<nat> := seq(k - 1, i => i);
      assert seq(k, i => i) == front + [k - 1];
      WeightOfAll(ms, k - 1);
      WeightAppend(ms, front, [k - 1]);
      assert Weight(ms, [k - 1]) == Cascade(ms, k - 1) by {
        assert [k - 1][1..] == [];
      }
    }
  }

  /** The entries the inner loop puts in front after `i` turns: index+i, ..., index+1, past-the-end ones skipped. */
  function Pushed(index: nat, i: nat, size: nat): (p: seq<nat>)
    ensures forall k :: 0 <= k < |p| ==> index < p[k] < size
    ensures index + 1 >= size ==> p == []
    ensures i > 0 && index + 1 < size ==> p != []
  {
    if i == 0 then [] else (if index + i < size then [index + i] else []) + Pushed(index, i - 1, size)
  }

  /** `for (i in 1..matchingNumbers) { ... queue.addFirst(...) }`. */
  method PushCopies(queue: seq<nat>, index: nat, matchingNumbers: nat, size: nat) returns (q: seq<nat>)
    ensures q == Pushed(index, matchingNumbers, size) + queue
  {
    q := queue;
    for i := 1 to matchingNumbers + 1
      invariant q == Pushed(index, i - 1, size) + queue
    {
      var nextIndex := index + i;
      if nextIndex < size {
        q := [nextIndex] + q;
      }
    }
  }

  /** The copies one card pushes stand for exactly the cascades it wins. */
  lemma {:induction false} WeightPushed(ms: seq<nat>, index: nat, i: nat)
    requires index < |ms|
    ensures Weight(ms, Pushed(index, i, |ms|)) == Copies(ms, index + 1, i)
  {
    if i > 0 {
      WeightPushed(ms, index, i - 1);
      var tail := Pushed(index, i - 1, |ms|);
      if index + i < |ms| {
        assert ([index + i] + tail)[1..] == tail;
      } else {
        assert Pushed(index, i, |ms|) == tail;
      }
    }
  }

  /** The match table at a line that parses holds its match count. */
  lemma MatchTableAt(lines: seq<string>, k: nat)
    requires k < |lines| && ParseLine(lines[k]).Some?
    ensures MatchTable(lines)[k] == MatchCount(ParseLine(lines[k]).value.0, ParseLine(lines[k]).value.1)
    ensures Matches(lines[k]) == Some(MatchTable(lines)[k])
  {
  }

  /** Dequeuing the front entry and pushing copies in front keeps every other entry and the last one. */
  lemma Dequeued(queue: seq<nat>, pushed: seq<nat>)
    requires queue != []
    ensures forall x :: x in queue && x != queue[0] ==> x in pushed + queue[1..]
    ensures |queue| > 1 ==> (pushed + queue[1..])[|pushed + queue[1..]| - 1] == queue[|queue| - 1]
    ensures |queue| == 1 ==> pushed + queue[1..] == pushed
  {
    forall x | x in queue && x != queue[0]
      ensures x in pushed + queue[1..]
    {
      var j :| 0 <= j < |queue| && queue[j] == x;
      assert (pushed + queue[1..])[|pushed| + j - 1] == x;
    }
  }

  /** A line that does not parse makes part 2 fail. */
  lemma TotalCardsFails(lines: seq<string>, k: nat)
    requires k < |lines| && ParseLine(lines[k]).None?
    ensures TotalCards(lines) == None
  {
    assert Matches(lines[k]).None?;
    MapAllPerElement(lines, Matches);
  }

  /** When every line parses, the parsed match counts are the match table. */
  lemma AllParsed(lines: seq<string>)
    requires forall k :: 0 <= k < |lines| ==> Matches(lines[k]).Some?
    ensures MapAll(lines, Matches) == Some(MatchTable(lines))
  {
    MapAllPerElement(lines, Matches);
    assert MapAll(lines, Matches).value == MatchTable(lines);
  }

  /** A match on the last card makes part 2 fail. */
  lemma TotalCardsLastMatches(lines: seq<string>, k: nat)
    requires k == |lines| - 1 && ParseLine(lines[k]).Some?
    requires MatchCount(ParseLine(lines[k]).value.0, ParseLine(lines[k]).value.1) > 0
    ensures TotalCards(lines) == None
  {
    MapAllPerElement(lines, Matches);
  }

  /** Every line parsing and the last card without a match make part 2 succeed. */
  lemma TotalCardsOk(lines: seq<string>)
    requires forall k :: 0 <= k < |lines| ==> Matches(lines[k]).Some?
    requires |lines| == 0 || Matches(lines[|lines| - 1]) == Some(0)
    ensures TotalCards(lines) == Some(Copies(MatchTable(lines), 0, |lines|))
  {
    AllParsed(lines);
    var ms := MatchTable(lines);
    assert |ms| == 0 || ms[|ms| - 1] == 0;
  }

  /** `part2`: the ArrayDeque of (index, line) entries, kept as indices into `lines`. */
  method Part2(lines: seq<string>) returns (result: Option<nat>)
    ensures result == TotalCards(lines)
  {
    ghost var ms := MatchTable(lines);
    var queue: seq<nat> := seq(|lines|, i => i);
    var totalScratchcards := 0;
    WeightOfAll(ms, |lines|);
    forall k | 0 <= k < |lines|
      ensures k in queue
    {
      assert queue[k] == k;
    }
    while queue != []
      invariant forall k :: 0 <= k < |queue| ==> queue[k] < |lines|
      invariant totalScratchcards + Weight(ms, queue) == Copies(ms, 0, |lines|)
      invariant forall k :: 0 <= k < |lines| ==> k in queue || Matches(lines[k]).Some?
      invariant queue != [] ==> queue[|queue| - 1] == |lines| - 1
      invariant queue == [] ==> |lines| == 0 || Matches(lines[|lines| - 1]) == Some(0)
      decreases Weight(ms, queue)
    {
      ghost var before := queue;
      var next := ProcessFront(lines, queue);
      totalScratchcards := totalScratchcards + 1;
      if next.None? {
        return None;
      }
      queue := next.value;
      TurnKeepsInvariants(lines, before, totalScratchcards - 1, queue);
    }
    Drained(lines, queue, totalScratchcards);
    result := Some(totalScratchcards);
  }

  /** When the loop ends, every card was parsed and counted with its cascade: the total is part 2's answer. */
  lemma Drained(lines: seq<string>, queue: seq<nat>, total: nat)
    requires queue == []
    requires total + Weight(MatchTable(lines), queue) == Copies(MatchTable(lines), 0, |lines|)
    requires forall k :: 0 <= k < |lines| ==> k in queue || Matches(lines[k]).Some?
    requires |lines| == 0 || Matches(lines[|lines| - 1]) == Some(0)
    ensures TotalCards(lines) == Some(total)
  {
    TotalCardsOk(lines);
  }

  /**
   * One turn of the `while` loop: `removeFirst`, then the `do`-`while` that parses the card and pushes
   * its copies to the front. The `do`-`while` repeats only when the card is the last one and has a
   * match, and then forever (or `first()` throws): None, as the whole of part 2 is then.
   */
  method ProcessFront(lines: seq<string>, queue: seq<nat>) returns (next: Option<seq<nat>>)
    requires queue != [] && forall k :: 0 <= k < |queue| ==> queue[k] < |lines|
    ensures next.None? ==> TotalCards(lines).None?
    ensures next.Some? ==> Matches(lines[queue[0]]) == Some(MatchTable(lines)[queue[0]])
    ensures next.Some? ==> next.value == Pushed(queue[0], MatchTable(lines)[queue[0]], |lines|) + queue[1..]
    ensures next.Some? && next.value == [] ==> MatchTable(lines)[queue[0]] == 0
  {
    var index := queue[0];
    var rest := queue[1..];
    var parsed := ParseLine(lines[index]);
    if parsed.None? {
      TotalCardsFails(lines, index);
      return None;
    }
    var matchingNumbers := MatchCount(parsed.value.0, parsed.value.1);
    MatchTableAt(lines, index);
    var q := PushCopies(rest, index, matchingNumbers, |lines|);
    if matchingNumbers > 0 && (q == [] || q[0] == index) {
      TotalCardsLastMatches(lines, index);
      return None;
    }
    return Some(q);
  }

  /** The invariants of part 2's `while` loop hold again after one turn. */
  lemma TurnKeepsInvariants(lines: seq<string>, before: seq<nat>, total: nat, after: seq<nat>)
    requires before != [] && forall k :: 0 <= k < |before| ==> before[k] < |lines|
    requires total + Weight(MatchTable(lines), before) == Copies(MatchTable(lines), 0, |lines|)
    requires forall k :: 0 <= k < |lines| ==> k in before || Matches(lines[k]).Some?
    requires before[|before| - 1] == |lines| - 1
    requires Matches(lines[before[0]]) == Some(MatchTable(lines)[before[0]])
    requires after == Pushed(before[0], MatchTable(lines)[before[0]], |lines|) + before[1..]
    requires after == [] ==> MatchTable(lines)[before[0]] == 0
    ensures forall k :: 0 <= k < |after| ==> after[k] < |lines|
    ensures Weight(MatchTable(lines), after) < Weight(MatchTable(lines), before)
    ensures total + 1 + Weight(MatchTable(lines), after) == Copies(MatchTable(lines), 0, |lines|)
    ensures forall k :: 0 <= k < |lines| ==> k in after || Matches(lines[k]).Some?
    ensures after != [] ==> after[|after| - 1] == |lines| - 1
    ensures after == [] ==> |lines| == 0 || Matches(lines[|lines| - 1]) == Some(0)
  {
    DequeueStep(MatchTable(lines), before, total, after);
    StillQueued(lines, before, after);
    if after == [] {
      assert before[0] == |lines| - 1;
    }
  }

  /** One turn of the loop keeps its invariants: the dequeued entry is counted and its copies are queued. */
  lemma DequeueStep(ms: seq<nat>, before: seq<nat>, total: nat, after: seq<nat>)
    requires before != [] && forall k :: 0 <= k < |before| ==> before[k] < |ms|
    requires total + Weight(ms, before) == Copies(ms, 0, |ms|)
    requires before[|before| - 1] == |ms| - 1
    requires after == Pushed(before[0], ms[before[0]], |ms|) + before[1..]
    ensures forall k :: 0 <= k < |after| ==> after[k] < |ms|
    ensures Weight(ms, after) < Weight(ms, before)
    ensures total + 1 + Weight(ms, after) == Copies(ms, 0, |ms|)
    ensures forall x :: x in before && x != before[0] ==> x in after
    ensures after != [] ==> after[|after| - 1] == |ms| - 1
    ensures after == [] ==> |before| == 1 && before[0] == |ms| - 1
  {
    var pushed := Pushed(before[0], ms[before[0]], |ms|);
    WeightDrops(ms, before, pushed);
    Dequeued(before, pushed);
  }

  /** Replacing the front entry by the copies its card wins lowers the weight by exactly one. */
  lemma WeightDrops(ms: seq<nat>, before: seq<nat>, pushed: seq<nat>)
    requires before != [] && forall k :: 0 <= k < |before| ==> before[k] < |ms|
    requires pushed == Pushed(before[0], ms[before[0]], |ms|)
    ensures forall k :: 0 <= k < |pushed + before[1..]| ==> (pushed + before[1..])[k] < |ms|
    ensures Weight(ms, pushed + before[1..]) + 1 == Weight(ms, before)
  {
    var index := before[0];
    assert forall k :: 0 <= k < |pushed| ==> pushed[k] < |ms|;
    WeightFront(ms, before);
    WeightPushed(ms, index, ms[index]);
    WeightAppend(ms, pushed, before[1..]);
  }

  /** The front entry of a queue stands for its own card and the cascades that card wins. */
  lemma WeightFront(ms: seq<nat>, queue: seq<nat>)
    requires queue != [] && forall k :: 0 <= k < |queue| ==> queue[k] < |ms|
    ensures Weight(ms, queue) == 1 + Copies(ms, queue[0] + 1, ms[queue[0]]) + Weight(ms, queue[1..])
  {
  }

  /** A card that has not been parsed yet and is not the one just dequeued is still in the queue. */
  lemma StillQueued(lines: seq<string>, before: seq<nat>, after: seq<nat>)
    requires before != [] && before[0] < |lines| && Matches(lines[before[0]]).Some?
    requires forall k :: 0 <= k < |lines| ==> k in before || Matches(lines[k]).Some?
    requires forall x :: x in before && x != before[0] ==> x in after
    ensures forall k :: 0 <= k < |lines| ==> k in after || Matches(lines[k]).Some?
  {
    forall k | 0 <= k < |lines| && k !in after ensures Matches(lines[k]).Some? {
      if k == before[0] {
        assert lines[k] == lines[before[0]];
      }
    }
  }

  /** Copies of cards past the last one are never made. */
  lemma {:induction false} CopiesPastEnd(ms: seq<nat>, count: nat)
    ensures Copies(ms, |ms|, count) == 0
  {
    if count > 0 {
      CopiesPastEnd(ms, count - 1);
    }
  }

  /** Every card in range contributes at least itself. */
  lemma {:induction false} CopiesAtLeastCount(ms: seq<nat>, from: nat, count: nat)
    requires from + count <= |ms|
    ensures Copies(ms, from, count) >= count
  {
    if count > 0 {
      CopiesAtLeastCount(ms, from, count - 1);
    }
  }

  /** Each processed entry adds one, so every card is counted at least once; the last card wins nothing. */
  lemma TotalCardsAtLeastLines(lines: seq<string>)
    ensures TotalCards(lines).Some? ==> TotalCards(lines).value >= |lines|
  {
    MapAllPerElement(lines, Matches);
    if MapAll(lines, Matches).Some? {
      CopiesAtLeastCount(MapAll(lines, Matches).value, 0, |lines|);
    }
  }

  /** The last card can only ever stand for itself: its copies would lie past the end. */
  lemma LastCardCascade(lines: seq<string>)
    requires |lines| > 0
    ensures Cascade(MatchTable(lines), |lines| - 1) == 1
  {
    CopiesPastEnd(MatchTable(lines), MatchTable(lines)[|lines| - 1]);
  }

  /** Without any match, no copies are won. */
  lemma {:induction false} NoMatchesNoCopies(ms: seq<nat>, count: nat)
    requires count <= |ms|
    requires forall k :: 0 <= k < |ms| ==> ms[k] == 0
    ensures Copies(ms, 0, count) == count
  {
    if count > 0 {
      NoMatchesNoCopies(ms, count - 1);
      assert Cascade(ms, count - 1) == 1;
    }
  }

  /** Cards without matches give the number of cards. */
  lemma NoMatchesTotal(lines: seq<string>)
    requires forall k :: 0 <= k < |lines| ==> Matches(lines[k]) == Some(0)
    ensures TotalCards(lines) == Some(|lines|)
  {
    AllParsed(lines);
    var ms := MatchTable(lines);
    assert forall k :: 0 <= k < |ms| ==> ms[k] == 0;
    NoMatchesNoCopies(ms, |lines|);
  }
}
