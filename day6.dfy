/**
 * Day 6, "Wait For It": a boat race of `time` milliseconds is won by holding the button for `b`
 * milliseconds when `b * (time - b)` beats the record distance. The script counts the winning holds
 * of every race and multiplies the counts; part 2 reads each line as one number with the spaces removed.
 */
module Day6 {
  import opened Wrappers
  import opened Text

  // ---------------------------------------------------------------- counting the winning holds

  /** Holding the button for `b` of the `t` milliseconds travels farther than `d`. */
  predicate Wins(t: int, d: int, b: int) {
    b * (t - b) > d
  }

  /** The number of winning holds among `0 until n`. */
  function WinCount(t: int, d: int, n: int): nat
    decreases n
  {
    if n <= 0 then 0 else WinCount(t, d, n - 1) + (if Wins(t, d, n - 1) then 1 else 0)
  }

  /** The winning holds of a race, as a set. */
  ghost function WinningHolds(t: int, d: int): set<int> {
    set b | 0 <= b < t && Wins(t, d, b)
  }

  /** `calculateWinningVariants`: one step of the loop per hold duration in `0 until time`. */
  method CalculateWinningVariants(time: int, distance: int) returns (winningVariants: int)
    ensures winningVariants == WinCount(time, distance, time)
    ensures winningVariants == |WinningHolds(time, distance)|
  {
    winningVariants := 0;
    var buttonHoldDuration := 0;
    while buttonHoldDuration < time
      invariant 0 <= buttonHoldDuration && (buttonHoldDuration <= time || buttonHoldDuration == 0)
      invariant winningVariants == WinCount(time, distance, buttonHoldDuration)
    {
      var travelTime := time - buttonHoldDuration;
      var travelDistance := buttonHoldDuration * travelTime;
      if travelDistance > distance {
        winningVariants := winningVariants + 1;
      }
      buttonHoldDuration := buttonHoldDuration + 1;
    }
    WinCountIsCardinality(time, distance, time);
  }

  /** The holds among `0 until n` that win. */
  ghost function WinningBelow(t: int, d: int, n: int): set<int> {
    set b | 0 <= b < n && Wins(t, d, b)
  }

  /** The count is the size of the set of winning holds among `0 until n`. */
  lemma {:induction false} WinCountIsCardinality(t: int, d: int, n: int)
    ensures WinCount(t, d, n) == |WinningBelow(t, d, n)|
    decreases n
  {
    if n <= 0 {
      assert WinningBelow(t, d, n) == {};
    } else {
      WinCountIsCardinality(t, d, n - 1);
      if Wins(t, d, n - 1) {
        assert WinningBelow(t, d, n) == WinningBelow(t, d, n - 1) + {n - 1};
      } else {
        assert WinningBelow(t, d, n) == WinningBelow(t, d, n - 1);
      }
    }
  }

  /** At most every hold wins, and a race without time has no winning hold. */
  lemma {:induction false} WinCountBounds(t: int, d: int, n: int)
    ensures WinCount(t, d, n) <= if n <= 0 then 0 else n
    decreases n
  {
    if n > 0 {
      WinCountBounds(t, d, n - 1);
    }
  }

  /** The answer for one race lies in `0..time`, and is 0 when `time <= 0`. */
  lemma RaceCountRange(t: int, d: int)
    ensures 0 <= WinCount(t, d, t) <= if t <= 0 then 0 else t
  {
    WinCountBounds(t, d, t);
  }

  /** A higher record leaves fewer winning holds. */
  lemma {:induction false} WinCountAntitone(t: int, d1: int, d2: int, n: int)
    requires d1 <= d2
    ensures WinCount(t, d2, n) <= WinCount(t, d1, n)
    decreases n
  {
    if n > 0 {
      WinCountAntitone(t, d1, d2, n - 1);
    }
  }

  /** Holding for `b` or for `t - b` travels the same distance, so the two win together. */
  lemma WinsSymmetric(t: int, d: int, b: int)
    ensures Wins(t, d, b) <==> Wins(t, d, t - b)
  {
    assert b * (t - b) == (t - b) * (t - (t - b));
  }

  /** The winning holds are symmetric around `t / 2`. */
  lemma WinningHoldsSymmetric(t: int, d: int, b: int)
    requires 0 < b < t
    ensures b in WinningHolds(t, d) <==> t - b in WinningHolds(t, d)
  {
    WinsSymmetric(t, d, b);
  }

  /** The first race of the puzzle's example: 7 milliseconds against a record of 9 gives 4 ways to win. */
  lemma ExampleRace()
    ensures WinCount(7, 9, 7) == 4
  {
    assert !Wins(7, 9, 0) && !Wins(7, 9, 1) && Wins(7, 9, 2) && Wins(7, 9, 3);
    assert Wins(7, 9, 4) && Wins(7, 9, 5) && !Wins(7, 9, 6);
    assert WinCount(7, 9, 3) == 1;
    assert WinCount(7, 9, 5) == 3;
  }

  // ---------------------------------------------------------------- part 1: the races side by side

  /** `line.split(Regex("\\s+")).drop(1).map { it.toInt() }`: None when a token is not a 32-bit integer. */
  function ParseRow(line: string): Option<seq<int>>
  {
    MapAll(SplitOnSpaceRuns(line)[1..], ToInt)
  }

  /** `parseFileForPart1` on the lines of the file: None when a line is missing or a token is malformed. */
  function ParsePart1(lines: seq<string>): Option<(seq<int>, seq<int>)>
  {
    if |lines| < 2 then None
    else
      match (ParseRow(lines[0]), ParseRow(lines[1]))
      case (Some(times), Some(distances)) => Some((times, distances))
      case _ => None
  }

  /** `xs.zip(ys)`: pairs up to the length of the shorter list. */
  function Zip<A, B>(xs: seq<A>, ys: seq<B>): (r: seq<(A, B)>)
    ensures |r| == if |xs| <= |ys| then |xs| else |ys|
    ensures forall i :: 0 <= i < |r| ==> r[i] == (xs[i], ys[i])
  {
    if xs == [] || ys == [] then [] else [(xs[0], ys[0])] + Zip(xs[1..], ys[1..])
  }

  /** `reduce { acc, i -> acc * i }`: the product, failing (None) on an empty list. */
  function ReduceProduct(xs: seq<int>): (r: Option<int>)
    ensures r.None? <==> xs == []
  {
    if xs == [] then None
    else if |xs| == 1 then Some(xs[0])
    else Some(ReduceProduct(xs[..|xs| - 1]).value * xs[|xs| - 1])
  }

  /** The product of all elements, 1 for none. */
  function Product(xs: seq<int>): int {
    if xs == [] then 1 else Product(xs[..|xs| - 1]) * xs[|xs| - 1]
  }

  /** On a non-empty list `reduce` computes the product. */
  lemma {:induction false} ReduceIsProduct(xs: seq<int>)
    requires xs != []
    ensures ReduceProduct(xs) == Some(Product(xs))
  {
    if |xs| == 1 {
      assert xs[..0] == [];
    } else {
      ReduceIsProduct(xs[..|xs| - 1]);
    }
  }

  /** The count of winning holds for each race, in order. */
  function RaceCounts(races: seq<(int, int)>): (r: seq<nat>)
    ensures |r| == |races|
    ensures forall i :: 0 <= i < |races| ==> r[i] == WinCount(races[i].0, races[i].1, races[i].0)
  {
    seq(|races|, i requires 0 <= i < |races| => WinCount(races[i].0, races[i].1, races[i].0))
  }

  /** The part 1 answer: the product of the counts of the races paired by `zip`. */
  function Part1(lines: seq<string>): Option<int>
  {
    match ParsePart1(lines)
    case None => None
    case Some((times, distances)) => ReduceProduct(RaceCounts(Zip(times, distances)))
  }

  /** Part 1 fails only when parsing does or no race is paired; otherwise it is the product of the counts. */
  lemma Part1IsProduct(lines: seq<string>)
    ensures Part1(lines).Some? <==>
      ParsePart1(lines).Some? && |ParsePart1(lines).value.0| > 0 && |ParsePart1(lines).value.1| > 0
    ensures Part1(lines).Some? ==>
      var races := Zip(ParsePart1(lines).value.0, ParsePart1(lines).value.1);
      Part1(lines).value == Product(RaceCounts(races))
  {
    if ParsePart1(lines).Some? {
      var races := Zip(ParsePart1(lines).value.0, ParsePart1(lines).value.1);
      if races != [] {
        ReduceIsProduct(RaceCounts(races));
      }
    }
  }

  /**
   * The numbers written after a title, each after its own gap: `gaps[i]` is the whitespace that
   * precedes `nums[i]`, as in the padded rows "Time:      7  15   30".
   */
  function Padded(gaps: seq<string>, nums: seq<nat>): string
  {
    if nums == [] || gaps == [] then "" else gaps[0] + NatToString(nums[0]) + Padded(gaps[1..], nums[1..])
  }

  /** One gap of whitespace per number. */
  predicate Gaps(gaps: seq<string>, nums: seq<nat>) {
    |gaps| == |nums| && forall k :: 0 <= k < |gaps| ==> IsSpaceRun(gaps[k])
  }

  /** A label followed by padded numbers splits into the label and the numbers' digits. */
  lemma {:induction false} SpacedPieces(title: string, gaps: seq<string>, nums: seq<nat>)
    requires SpaceFree(title) && Gaps(gaps, nums)
    ensures SplitOnSpaceRuns(title + Padded(gaps, nums)) == [title] + Numerals(nums)
    decreases |nums|
  {
    if nums == [] {
      assert title + Padded(gaps, nums) == title;
      SplitOnSpaceRunsNone(title);
    } else {
      var x := NatToString(nums[0]);
      var y := x + Padded(gaps[1..], nums[1..]);
      assert title + Padded(gaps, nums) == title + gaps[0] + y;
      NatToStringChars(nums[0], ' ');
      assert y[0] == x[0];
      SplitOnSpaceRunsCons(title, gaps[0], y);
      assert Gaps(gaps[1..], nums[1..]) by {
        assert forall k :: 0 <= k < |gaps| - 1 ==> gaps[1..][k] == gaps[k + 1];
      }
      SpacedPieces(x, gaps[1..], nums[1..]);
      assert Numerals(nums) == [x] + Numerals(nums[1..]);
    }
  }

  /** Parsing a row written as a label and padded 32-bit numbers gives the numbers back. */
  lemma ParseRowSpaced(title: string, gaps: seq<string>, nums: seq<nat>)
    requires SpaceFree(title) && Gaps(gaps, nums)
    requires forall i :: 0 <= i < |nums| ==> nums[i] <= IntMax
    ensures ParseRow(title + Padded(gaps, nums)) == Some(nums)
  {
    SpacedPieces(title, gaps, nums);
    var tokens := SplitOnSpaceRuns(title + Padded(gaps, nums))[1..];
    assert |tokens| == |nums|;
    forall i | 0 <= i < |nums|
      ensures ToInt(tokens[i]) == Some(nums[i])
    {
      NatToStringToInt(nums[i]);
    }
    MapAllPerElement(tokens, ToInt);
    assert MapAll(tokens, ToInt).value == nums;
  }

  /** The time row of the puzzle's example, padded as the puzzle pads it, reads as 7, 15 and 30. */
  lemma ExampleTimeRow()
    ensures ParseRow("Time:      7  15   30") == Some([7, 15, 30])
  {
    var gaps := ["      ", "  ", "   "];
    ExamplePadding();
    assert "Time:" + "      7  15   30" == "Time:      7  15   30";
    assert Gaps(gaps, [7, 15, 30]);
    ParseRowSpaced("Time:", gaps, [7, 15, 30]);
  }

  lemma ExamplePadding()
    ensures Padded(["      ", "  ", "   "], [7, 15, 30]) == "      7  15   30"
  {
    var gaps: seq<string> := ["      ", "  ", "   "];
    var nums: seq<nat> := [7, 15, 30];
    assert NatToString(7) == "7";
    assert NatToString(15) == "15" by {
      assert NatToString(1) == "1";
    }
    assert NatToString(30) == "30" by {
      assert NatToString(3) == "3";
    }
    assert gaps[1..][1..] == ["   "] && nums[1..][1..] == [30];
    assert Padded(gaps[1..][1..], nums[1..][1..]) == "   " + "30";
    assert Padded(gaps[1..], nums[1..]) == "  " + "15" + "   30";
    assert Padded(gaps, nums) == "      " + "7" + "  15   30";
  }

  // ---------------------------------------------------------------- part 2: one race, spaces removed

  /** `line.split(":")[1].replace(" ", "").toLong()`: None without a ':' or when the digits are no Long. */
  function ParseJoined(line: string): Option<int>
  {
    var parts := Split(line, ":");
    if |parts| < 2 then None else ToLong(RemoveChar(parts[1], ' '))
  }

  /** `parseFileForPart2` on the lines of the file. */
  function ParsePart2(lines: seq<string>): Option<(int, int)>
  {
    if |lines| < 2 then None
    else
      match (ParseJoined(lines[0]), ParseJoined(lines[1]))
      case (Some(time), Some(distance)) => Some((time, distance))
      case _ => None
  }

  /** The part 2 answer: the count for the one race the lines spell. */
  function Part2(lines: seq<string>): Option<int>
  {
    match ParsePart2(lines)
    case None => None
    case Some((time, distance)) => Some(WinCount(time, distance, time))
  }

  /** The digits of all the numbers, one after the other. */
  function Joined(nums: seq<nat>): (s: string)
    ensures AllDigits(s)
  {
    if nums == [] then "" else NatToString(nums[0]) + Joined(nums[1..])
  }

  /** Gaps made of spaces only (empty ones included), as `replace(" ", "")` deletes them. */
  predicate BlankGaps(gaps: seq<string>, nums: seq<nat>) {
    |gaps| == |nums| && forall k, i :: 0 <= k < |gaps| && 0 <= i < |gaps[k]| ==> gaps[k][i] == ' '
  }

  /** Deleting the spaces from padded numbers leaves their digits run together. */
  lemma {:induction false} RemoveSpaces(gaps: seq<string>, nums: seq<nat>)
    requires BlankGaps(gaps, nums)
    ensures RemoveChar(Padded(gaps, nums), ' ') == Joined(nums)
    ensures ':' !in Padded(gaps, nums)
    decreases |nums|
  {
    if nums != [] {
      assert BlankGaps(gaps[1..], nums[1..]) by {
        assert forall k :: 0 <= k < |gaps| - 1 ==> gaps[1..][k] == gaps[k + 1];
      }
      RemoveSpaces(gaps[1..], nums[1..]);
      NatToStringChars(nums[0], ' ');
      NatToStringChars(nums[0], ':');
      var x := NatToString(nums[0]);
      var rest := Padded(gaps[1..], nums[1..]);
      assert Padded(gaps, nums) == gaps[0] + (x + rest);
      assert forall i :: 0 <= i < |gaps[0]| ==> gaps[0][i] == ' ';
      RemoveCharAppend(gaps[0], x + rest, ' ');
      RemoveCharOnly(gaps[0], ' ');
      RemoveCharAppend(x, rest, ' ');
      RemoveCharAbsent(x, ' ');
      assert ':' !in gaps[0];
    }
  }

  /** Part 2 reads a label, ':' and space-padded numbers as the one number their digits spell together. */
  lemma ParseJoinedSpaced(title: string, gaps: seq<string>, nums: seq<nat>)
    requires ':' !in title && nums != [] && BlankGaps(gaps, nums)
    requires DecimalValue(Joined(nums)) <= LongMax
    ensures ParseJoined(title + ":" + Padded(gaps, nums)) == Some(DecimalValue(Joined(nums)))
  {
    RemoveSpaces(gaps, nums);
    SplitAtDelimiter(title, Padded(gaps, nums), ':');
    assert Joined(nums) != [] by {
      assert |NatToString(nums[0])| > 0;
    }
  }
}
