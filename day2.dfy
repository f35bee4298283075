/**
 * Day 2: games of balls drawn from a bag. A line reads `Game <id>: <set>; <set>; ...`, a set is a
 * comma-separated list of `<count> <colour>` entries. Part 1 adds up the ids of the games no entry of
 * which exceeds the bag's limits; part 2 adds up, per game, the product of the largest count seen for
 * each colour.
 */
module Day2 {
  import opened Wrappers
  import opened Text
  import opened Seqs

  /** One `<count> <colour>` entry of a set. */
  datatype Ball = Ball(count: int, colour: string)

  /** `ball.trim().split(" ")`, the count from the first word and the colour from the second; None where that throws. */
  function ParseBall(ball: string): Option<Ball>
  {
    var ballParts := Split(Trim(ball), " ");
    match ToInt(ballParts[0])
    case None => None
    case Some(count) => if |ballParts| < 2 then None else Some(Ball(count, ballParts[1]))
  }

  /** `set.split(",")`, every entry parsed. */
  function ParseSet(gameSet: string): Option<seq<Ball>>
  {
    MapAll(Split(gameSet, ","), ParseBall)
  }

  /** `line.split(":")[1].split(";")`, every set parsed; None on a line without a colon. */
  function ParseSets(line: string): Option<seq<seq<Ball>>>
  {
    var parts := Split(line, ":");
    if |parts| < 2 then None else MapAll(Split(parts[1], ";"), ParseSet)
  }

  /** `parts[0].split(" ")[1].toInt()`: the second word before the colon. */
  function GameId(line: string): Option<int>
  {
    var idParts := Split(Split(line, ":")[0], " ");
    if |idParts| < 2 then None else ToInt(idParts[1])
  }

  // ---------------------------------------------------------------- part 1

  /** An entry within the bag's limits; a colour other than red, green and blue is never checked. */
  predicate Allowed(ball: Ball, redBalls: int, greenBalls: int, blueBalls: int)
  {
    if ball.colour == "red" then ball.count <= redBalls
    else if ball.colour == "green" then ball.count <= greenBalls
    else if ball.colour == "blue" then ball.count <= blueBalls
    else true
  }

  predicate SetAllowed(balls: seq<Ball>, redBalls: int, greenBalls: int, blueBalls: int)
  {
    forall k :: 0 <= k < |balls| ==> Allowed(balls[k], redBalls, greenBalls, blueBalls)
  }

  /** A game is possible when every entry of every set is within the limits. */
  predicate GamePossible(sets: seq<seq<Ball>>, redBalls: int, greenBalls: int, blueBalls: int)
  {
    forall i :: 0 <= i < |sets| ==> SetAllowed(sets[i], redBalls, greenBalls, blueBalls)
  }

  /** What one line adds to the part 1 sum: its id when the game is possible, else 0. */
  function PossibleId(line: string, redBalls: int, greenBalls: int, blueBalls: int): Option<int>
  {
    match GameId(line)
    case None => None
    case Some(id) =>
      match ParseSets(line)
      case None => None
      case Some(sets) => Some(if GamePossible(sets, redBalls, greenBalls, blueBalls) then id else 0)
  }

  /** `PossibleId` for fixed limits, as the function the line loop applies to every line. */
  function IdScorer(redBalls: int, greenBalls: int, blueBalls: int): string -> Option<int>
  {
    line => PossibleId(line, redBalls, greenBalls, blueBalls)
  }

  /** The part 1 answer: the sum of what every line adds; None once a line fails to parse. */
  function PossibleIdSum(lines: seq<string>, redBalls: int, greenBalls: int, blueBalls: int): Option<int>
  {
    match MapAll(lines, IdScorer(redBalls, greenBalls, blueBalls))
    case None => None
    case Some(ids) => Some(Sum(ids))
  }

  /**
   * Part 1 fails exactly when some line has no id or a malformed set; otherwise it is the sum, over
   * the lines, of the id of every possible game and 0 for every other one (0 for no lines at all).
   */
  lemma PossibleIdSumOfGames(lines: seq<string>, redBalls: int, greenBalls: int, blueBalls: int)
    ensures lines == [] ==> PossibleIdSum(lines, redBalls, greenBalls, blueBalls) == Some(0)
    ensures PossibleIdSum(lines, redBalls, greenBalls, blueBalls).Some? <==>
      forall i :: 0 <= i < |lines| ==> GameId(lines[i]).Some? && ParseSets(lines[i]).Some?
    ensures PossibleIdSum(lines, redBalls, greenBalls, blueBalls).Some? ==>
      PossibleIdSum(lines, redBalls, greenBalls, blueBalls).value ==
        Sum(seq(|lines|, i requires 0 <= i < |lines| =>
          if GamePossible(ParseSets(lines[i]).value, redBalls, greenBalls, blueBalls) then GameId(lines[i]).value else 0))
  {
    var f := IdScorer(redBalls, greenBalls, blueBalls);
    MapAllPerElement(lines, f);
    if PossibleIdSum(lines, redBalls, greenBalls, blueBalls).Some? {
      assert MapAll(lines, f).value ==
        seq(|lines|, i requires 0 <= i < |lines| =>
          if GamePossible(ParseSets(lines[i]).value, redBalls, greenBalls, blueBalls) then GameId(lines[i]).value else 0);
    }
  }

  lemma SetAllowedSnoc(balls: seq<Ball>, ball: Ball, redBalls: int, greenBalls: int, blueBalls: int)
    ensures SetAllowed(balls + [ball], redBalls, greenBalls, blueBalls) ==
      (SetAllowed(balls, redBalls, greenBalls, blueBalls) && Allowed(ball, redBalls, greenBalls, blueBalls))
  {
    assert forall k :: 0 <= k < |balls| ==> (balls + [ball])[k] == balls[k];
    assert (balls + [ball])[|balls|] == ball;
  }

  lemma GamePossibleSnoc(sets: seq<seq<Ball>>, balls: seq<Ball>, redBalls: int, greenBalls: int, blueBalls: int)
    ensures GamePossible(sets + [balls], redBalls, greenBalls, blueBalls) ==
      (GamePossible(sets, redBalls, greenBalls, blueBalls) && SetAllowed(balls, redBalls, greenBalls, blueBalls))
  {
    assert forall i :: 0 <= i < |sets| ==> (sets + [balls])[i] == sets[i];
    assert (sets + [balls])[|sets|] == balls;
  }

  /**
   * The inner `balls.forEach` of part 1: the flag comes in as the sets before left it and goes out
   * cleared if an entry of this set is over its limit.
   */
  method CheckBalls(balls: seq<string>, isGamePossible: bool, redBalls: int, greenBalls: int, blueBalls: int)
    returns (result: Option<bool>)
    ensures result.None? <==> MapAll(balls, ParseBall).None?
    ensures result.Some? ==>
      result.value == (isGamePossible && SetAllowed(MapAll(balls, ParseBall).value, redBalls, greenBalls, blueBalls))
  {
    var possible := isGamePossible;
    ghost var parsedBalls: seq<Ball> := [];
    for b := 0 to |balls|
      invariant MapAll(balls[..b], ParseBall) == Some(parsedBalls)
      invariant possible == (isGamePossible && SetAllowed(parsedBalls, redBalls, greenBalls, blueBalls))
    {
      var ballParts := Split(Trim(balls[b]), " ");
      var count := ToInt(ballParts[0]);
      MapAllSnoc(balls, b, ParseBall);
      if count.None? || |ballParts| < 2 {
        MapAllPrefixFails(balls, b + 1, ParseBall);
        return None;
      }
      var colour := ballParts[1];
      if colour == "red" {
        if count.value > redBalls { possible := false; }
      } else if colour == "green" {
        if count.value > greenBalls { possible := false; }
      } else if colour == "blue" {
        if count.value > blueBalls { possible := false; }
      }
      SetAllowedSnoc(parsedBalls, Ball(count.value, colour), redBalls, greenBalls, blueBalls);
      parsedBalls := parsedBalls + [Ball(count.value, colour)];
    }
    assert balls[..|balls|] == balls;
    return Some(possible);
  }

  /** The `gameSets.forEach` of part 1: whether every set of the game is within the limits. */
  method CheckSets(gameSets: seq<string>, redBalls: int, greenBalls: int, blueBalls: int) returns (result: Option<bool>)
    ensures result.None? <==> MapAll(gameSets, ParseSet).None?
    ensures result.Some? ==> result.value == GamePossible(MapAll(gameSets, ParseSet).value, redBalls, greenBalls, blueBalls)
  {
    var isGamePossible := true;
    ghost var parsed: seq<seq<Ball>> := [];
    for s := 0 to |gameSets|
      invariant MapAll(gameSets[..s], ParseSet) == Some(parsed)
      invariant isGamePossible == GamePossible(parsed, redBalls, greenBalls, blueBalls)
    {
      var balls := Split(gameSets[s], ",");
      var checked := CheckBalls(balls, isGamePossible, redBalls, greenBalls, blueBalls);
      MapAllSnoc(gameSets, s, ParseSet);
      if checked.None? {
        MapAllPrefixFails(gameSets, s + 1, ParseSet);
        return None;
      }
      isGamePossible := checked.value;
      GamePossibleSnoc(parsed, MapAll(balls, ParseBall).value, redBalls, greenBalls, blueBalls);
      parsed := parsed + [MapAll(balls, ParseBall).value];
    }
    assert gameSets[..|gameSets|] == gameSets;
    return Some(isGamePossible);
  }

  /** The body of part 1's `forEachLine`: what one line adds to the sum. */
  method GameScore(line: string, redBalls: int, greenBalls: int, blueBalls: int) returns (score: Option<int>)
    ensures score == PossibleId(line, redBalls, greenBalls, blueBalls)
  {
    var parts := Split(line, ":");
    var idParts := Split(parts[0], " ");
    if |idParts| < 2 {
      return None;
    }
    var gameId := ToInt(idParts[1]);
    if gameId.None? || |parts| < 2 {
      return None;
    }
    var gameSets := Split(parts[1], ";");
    var isGamePossible := CheckSets(gameSets, redBalls, greenBalls, blueBalls);
    if isGamePossible.None? {
      return None;
    }
    if isGamePossible.value {
      return Some(gameId.value);
    }
    return Some(0);
  }

  /** Part 1 as the script computes it: `sumOfGameIds` over the lines. */
  method SumOfPossibleGameIds(lines: seq<string>, redBalls: int, greenBalls: int, blueBalls: int)
    returns (result: Option<int>)
    ensures result == PossibleIdSum(lines, redBalls, greenBalls, blueBalls)
  {
    var sumOfGameIds := 0;
    ghost var ids: seq<int> := [];
    for i := 0 to |lines|
      invariant MapAll(lines[..i], IdScorer(redBalls, greenBalls, blueBalls)) == Some(ids) && Sum(ids) == sumOfGameIds
    {
      var score := GameScore(lines[i], redBalls, greenBalls, blueBalls);
      MapAllSnoc(lines, i, IdScorer(redBalls, greenBalls, blueBalls));
      if score.None? {
        MapAllPrefixFails(lines, i + 1, IdScorer(redBalls, greenBalls, blueBalls));
        return None;
      }
      sumOfGameIds := sumOfGameIds + score.value;
      assert (ids + [score.value])[..|ids|] == ids;
      ids := ids + [score.value];
    }
    assert lines[..|lines|] == lines;
    return Some(sumOfGameIds);
  }

  /** Possibility does not depend on the order of the sets. */
  lemma GamePossibleReorder(sets: seq<seq<Ball>>, reordered: seq<seq<Ball>>, redBalls: int, greenBalls: int, blueBalls: int)
    requires multiset(sets) == multiset(reordered)
    ensures GamePossible(sets, redBalls, greenBalls, blueBalls) == GamePossible(reordered, redBalls, greenBalls, blueBalls)
  {
    forall i | 0 <= i < |reordered| && GamePossible(sets, redBalls, greenBalls, blueBalls)
      ensures SetAllowed(reordered[i], redBalls, greenBalls, blueBalls)
    {
      assert reordered[i] in multiset(sets);
    }
    forall i | 0 <= i < |sets| && GamePossible(reordered, redBalls, greenBalls, blueBalls)
      ensures SetAllowed(sets[i], redBalls, greenBalls, blueBalls)
    {
      assert sets[i] in multiset(reordered);
    }
  }

  /** An entry of a colour other than red, green and blue, added to any set, leaves possibility as it was. */
  lemma OtherColourAllowed(sets: seq<seq<Ball>>, i: nat, k: nat, ball: Ball, redBalls: int, greenBalls: int, blueBalls: int)
    requires i < |sets| && k <= |sets[i]|
    requires ball.colour != "red" && ball.colour != "green" && ball.colour != "blue"
    ensures GamePossible(sets[i := sets[i][..k] + [ball] + sets[i][k..]], redBalls, greenBalls, blueBalls)
      == GamePossible(sets, redBalls, greenBalls, blueBalls)
  {
    var grown := sets[i][..k] + [ball] + sets[i][k..];
    if SetAllowed(sets[i], redBalls, greenBalls, blueBalls) {
      forall j | 0 <= j < |grown| ensures Allowed(grown[j], redBalls, greenBalls, blueBalls) {
        if j < k {
          assert grown[j] == sets[i][j];
        } else if j > k {
          assert grown[j] == sets[i][j - 1];
        }
      }
    }
    if SetAllowed(grown, redBalls, greenBalls, blueBalls) {
      forall j | 0 <= j < |sets[i]| ensures Allowed(sets[i][j], redBalls, greenBalls, blueBalls) {
        if j < k {
          assert grown[j] == sets[i][j];
        } else {
          assert grown[j + 1] == sets[i][j];
        }
      }
    }
    assert SetAllowed(grown, redBalls, greenBalls, blueBalls) == SetAllowed(sets[i], redBalls, greenBalls, blueBalls);
    var updated := sets[i := grown];
    assert forall j :: 0 <= j < |sets| && j != i ==> updated[j] == sets[j];
    assert updated[i] == grown;
  }

  /** Before the colon, a word, one space and a number: the id is that number read as an Int. */
  lemma GameIdOfWords(word: string, num: string, rest: string)
    requires ':' !in word && ':' !in num && ' ' !in word && ' ' !in num
    ensures GameId(word + " " + num + ":" + rest) == ToInt(num)
  {
    var head := word + [' '] + num;
    assert ':' !in head;
    assert word + " " + num + ":" + rest == head + [':'] + rest;
    SplitFirstPiece(head, rest, ':');
    SplitAtDelimiter(word, num, ' ');
  }

  /** The id read back from a line written the puzzle's way: `Game <n>:` followed by anything. */
  lemma GameIdRoundTrip(n: nat, rest: string)
    requires n <= IntMax
    ensures GameId("Game " + NatToString(n) + ":" + rest) == Some(n)
  {
    NatToStringChars(n, ':');
    NatToStringChars(n, ' ');
    assert "Game " + NatToString(n) == "Game" + " " + NatToString(n);
    GameIdOfWords("Game", NatToString(n), rest);
    NatToStringToInt(n);
  }

  /** An entry written `<n> <colour>` parses back to that count and colour. */
  lemma BallRoundTrip(n: nat, colour: string)
    requires n <= IntMax
    requires colour != [] && forall j :: 0 <= j < |colour| ==> !IsWhitespace(colour[j])
    ensures ParseBall(NatToString(n) + " " + colour) == Some(Ball(n, colour))
  {
    var num := NatToString(n);
    var s := num + " " + colour;
    assert 0 < |num| && IsDigit(num[0]);
    assert s[0] == num[0] && s[|s| - 1] == colour[|colour| - 1];
    TrimNoOp(s);
    NatToStringChars(n, ' ');
    assert ' ' !in colour by {
      assert IsWhitespace(' ');
    }
    assert s == num + [' '] + colour;
    SplitAtDelimiter(num, colour, ' ');
    NatToStringToInt(n);
  }

  // ---------------------------------------------------------------- part 2

  /** The count a set leaves in `red`, `green` or `blue`: the last entry of that colour, 0 if none. */
  function LastCount(balls: seq<Ball>, colour: string): int
  {
    if balls == [] then 0
    else if balls[|balls| - 1].colour == colour then balls[|balls| - 1].count
    else LastCount(balls[..|balls| - 1], colour)
  }

  /** The running maximum over the sets, seeded with `Int.MIN_VALUE`. */
  function MaxCount(sets: seq<seq<Ball>>, colour: string): int
  {
    if sets == [] then IntMin
    else
      var soFar := MaxCount(sets[..|sets| - 1], colour);
      var count := LastCount(sets[|sets| - 1], colour);
      if count > soFar then count else soFar
  }

  /** `maxRed * maxGreen * maxBlue`. */
  function GamePower(sets: seq<seq<Ball>>): int
  {
    MaxCount(sets, "red") * MaxCount(sets, "green") * MaxCount(sets, "blue")
  }

  function LinePower(line: string): Option<int>
  {
    match ParseSets(line)
    case None => None
    case Some(sets) => Some(GamePower(sets))
  }

  /** The part 2 answer: the sum of every line's power; None once a line fails to parse. */
  function PowerSum(lines: seq<string>): Option<int>
  {
    match MapAll(lines, LinePower)
    case None => None
    case Some(powers) => Some(Sum(powers))
  }

  /** Part 2 fails exactly when some line has a malformed set; otherwise it is the sum of the games' powers. */
  lemma PowerSumOfGames(lines: seq<string>)
    ensures lines == [] ==> PowerSum(lines) == Some(0)
    ensures PowerSum(lines).Some? <==> forall i :: 0 <= i < |lines| ==> ParseSets(lines[i]).Some?
    ensures PowerSum(lines).Some? ==>
      PowerSum(lines).value == Sum(seq(|lines|, i requires 0 <= i < |lines| => GamePower(ParseSets(lines[i]).value)))
  {
    MapAllPerElement(lines, LinePower);
    if PowerSum(lines).Some? {
      assert MapAll(lines, LinePower).value ==
        seq(|lines|, i requires 0 <= i < |lines| => GamePower(ParseSets(lines[i]).value));
    }
  }

  /** The inner `balls.forEach` of part 2: the `red`, `green` and `blue` a set leaves behind. */
  method SetCounts(balls: seq<string>) returns (result: Option<(int, int, int)>)
    ensures result.None? <==> MapAll(balls, ParseBall).None?
    ensures result.Some? ==> var parsed := MapAll(balls, ParseBall).value;
      result.value == (LastCount(parsed, "red"), LastCount(parsed, "green"), LastCount(parsed, "blue"))
  {
    var red, green, blue := 0, 0, 0;
    ghost var parsedBalls: seq<Ball> := [];
    for b := 0 to |balls|
      invariant MapAll(balls[..b], ParseBall) == Some(parsedBalls)
      invariant red == LastCount(parsedBalls, "red") && green == LastCount(parsedBalls, "green")
      invariant blue == LastCount(parsedBalls, "blue")
    {
      var ballParts := Split(Trim(balls[b]), " ");
      var count := ToInt(ballParts[0]);
      MapAllSnoc(balls, b, ParseBall);
      if count.None? || |ballParts| < 2 {
        MapAllPrefixFails(balls, b + 1, ParseBall);
        return None;
      }
      var colour := ballParts[1];
      if colour == "red" {
        red := count.value;
      } else if colour == "green" {
        green := count.value;
      } else if colour == "blue" {
        blue := count.value;
      }
      assert (parsedBalls + [Ball(count.value, colour)])[..|parsedBalls|] == parsedBalls;
      parsedBalls := parsedBalls + [Ball(count.value, colour)];
    }
    assert balls[..|balls|] == balls;
    return Some((red, green, blue));
  }

  /** The `gameSets.forEach` of part 2: `maxRed`, `maxGreen` and `maxBlue` over the sets of a game. */
  method Maxima(gameSets: seq<string>) returns (result: Option<(int, int, int)>)
    ensures result.None? <==> MapAll(gameSets, ParseSet).None?
    ensures result.Some? ==> var parsed := MapAll(gameSets, ParseSet).value;
      result.value == (MaxCount(parsed, "red"), MaxCount(parsed, "green"), MaxCount(parsed, "blue"))
  {
    var maxRed, maxGreen, maxBlue := IntMin, IntMin, IntMin;
    ghost var parsed: seq<seq<Ball>> := [];
    for s := 0 to |gameSets|
      invariant MapAll(gameSets[..s], ParseSet) == Some(parsed)
      invariant maxRed == MaxCount(parsed, "red") && maxGreen == MaxCount(parsed, "green")
      invariant maxBlue == MaxCount(parsed, "blue")
    {
      var counts := SetCounts(Split(gameSets[s], ","));
      MapAllSnoc(gameSets, s, ParseSet);
      if counts.None? {
        MapAllPrefixFails(gameSets, s + 1, ParseSet);
        return None;
      }
      var (red, green, blue) := counts.value;
      if red > maxRed { maxRed := red; }
      if green > maxGreen { maxGreen := green; }
      if blue > maxBlue { maxBlue := blue; }
      ghost var balls := ParseSet(gameSets[s]).value;
      assert (parsed + [balls])[..|parsed|] == parsed;
      parsed := parsed + [balls];
    }
    assert gameSets[..|gameSets|] == gameSets;
    return Some((maxRed, maxGreen, maxBlue));
  }

  /** The body of part 2's `forEachLine`: the power of one game. */
  method PowerOfGame(line: string) returns (power: Option<int>)
    ensures power == LinePower(line)
  {
    var parts := Split(line, ":");
    if |parts| < 2 {
      return None;
    }
    var maxima := Maxima(Split(parts[1], ";"));
    if maxima.None? {
      return None;
    }
    var (maxRed, maxGreen, maxBlue) := maxima.value;
    return Some(maxRed * maxGreen * maxBlue);
  }

  /** Part 2 as the script computes it: `sumOfPowers` over the lines. */
  method SumOfGamePowers(lines: seq<string>) returns (result: Option<int>)
    ensures result == PowerSum(lines)
  {
    var sumOfPowers := 0;
    ghost var powers: seq<int> := [];
    for i := 0 to |lines|
      invariant MapAll(lines[..i], LinePower) == Some(powers) && Sum(powers) == sumOfPowers
    {
      var power := PowerOfGame(lines[i]);
      MapAllSnoc(lines, i, LinePower);
      if power.None? {
        MapAllPrefixFails(lines, i + 1, LinePower);
        return None;
      }
      sumOfPowers := sumOfPowers + power.value;
      assert (powers + [power.value])[..|powers|] == powers;
      powers := powers + [power.value];
    }
    assert lines[..|lines|] == lines;
    return Some(sumOfPowers);
  }

  /** An entry of another colour, anywhere in a set, leaves the count of `colour` as it was. */
  lemma {:induction false} LastCountOtherColour(balls: seq<Ball>, k: nat, ball: Ball, colour: string)
    requires k <= |balls| && ball.colour != colour
    ensures LastCount(balls[..k] + [ball] + balls[k..], colour) == LastCount(balls, colour)
    decreases |balls|
  {
    var grown := balls[..k] + [ball] + balls[k..];
    if k == |balls| {
      assert grown[..|grown| - 1] == balls;
    } else {
      var n := |balls| - 1;
      assert grown[|grown| - 1] == balls[n];
      LastCountOtherColour(balls[..n], k, ball, colour);
      assert grown[..|grown| - 1] == balls[..n][..k] + [ball] + balls[..n][k..];
    }
  }

  /** A set without an entry of a colour leaves 0 for it. */
  lemma {:induction false} LastCountAbsent(balls: seq<Ball>, colour: string)
    requires forall k :: 0 <= k < |balls| ==> balls[k].colour != colour
    ensures LastCount(balls, colour) == 0
  {
    if balls != [] {
      var n := |balls| - 1;
      assert forall k :: 0 <= k < n ==> balls[..n][k] == balls[k];
      LastCountAbsent(balls[..n], colour);
    }
  }

  /** A colour repeated within a set keeps the count of its last entry. */
  lemma {:induction false} LastCountIsLast(balls: seq<Ball>, colour: string, k: nat)
    requires k < |balls| && balls[k].colour == colour
    requires forall j :: k < j < |balls| ==> balls[j].colour != colour
    ensures LastCount(balls, colour) == balls[k].count
  {
    var n := |balls| - 1;
    if k < n {
      assert forall j :: k < j < n ==> balls[..n][j] == balls[j];
      LastCountIsLast(balls[..n], colour, k);
    }
  }

  /**
   * The maximum is the larger of the `Int.MIN_VALUE` seed and every set's count: no set's count
   * exceeds it, and it is the seed or one of the counts.
   */
  lemma {:induction false} MaxCountIsMaximum(sets: seq<seq<Ball>>, colour: string)
    ensures sets == [] ==> MaxCount(sets, colour) == IntMin
    ensures IntMin <= MaxCount(sets, colour)
    ensures forall i :: 0 <= i < |sets| ==> LastCount(sets[i], colour) <= MaxCount(sets, colour)
    ensures MaxCount(sets, colour) == IntMin ||
      exists i :: 0 <= i < |sets| && MaxCount(sets, colour) == LastCount(sets[i], colour)
  {
    if sets != [] {
      var n := |sets| - 1;
      MaxCountIsMaximum(sets[..n], colour);
      assert forall i :: 0 <= i < n ==> sets[..n][i] == sets[i];
      if LastCount(sets[n], colour) > MaxCount(sets[..n], colour) {
        assert MaxCount(sets, colour) == LastCount(sets[n], colour);
      } else if MaxCount(sets[..n], colour) != IntMin {
        var j :| 0 <= j < n && MaxCount(sets[..n], colour) == LastCount(sets[..n][j], colour);
        assert MaxCount(sets, colour) == LastCount(sets[j], colour);
      }
    }
  }

  /** With at least one set and no count below `Int.MIN_VALUE`, the seed never survives: the maximum is some set's count. */
  lemma MaxCountAttained(sets: seq<seq<Ball>>, colour: string)
    requires sets != []
    requires forall i, k :: 0 <= i < |sets| && 0 <= k < |sets[i]| ==> IntMin <= sets[i][k].count
    ensures exists i :: 0 <= i < |sets| && MaxCount(sets, colour) == LastCount(sets[i], colour)
  {
    MaxCountIsMaximum(sets, colour);
    LastCountBounds(sets[0], colour, IntMin);
    if MaxCount(sets, colour) == IntMin {
      assert MaxCount(sets, colour) == LastCount(sets[0], colour);
    }
  }

  /** The maxima, and so the power, do not depend on the order of the sets. */
  lemma GamePowerReorder(sets: seq<seq<Ball>>, reordered: seq<seq<Ball>>)
    requires multiset(sets) == multiset(reordered)
    ensures forall colour :: MaxCount(sets, colour) == MaxCount(reordered, colour)
    ensures GamePower(sets) == GamePower(reordered)
  {
    forall colour ensures MaxCount(sets, colour) == MaxCount(reordered, colour) {
      MaxCountReorder(sets, reordered, colour);
    }
  }

  lemma MaxCountReorder(sets: seq<seq<Ball>>, reordered: seq<seq<Ball>>, colour: string)
    requires multiset(sets) == multiset(reordered)
    ensures MaxCount(sets, colour) == MaxCount(reordered, colour)
  {
    MaxCountAtMost(sets, reordered, colour);
    MaxCountAtMost(reordered, sets, colour);
  }

  /** Every set of `sets` being among `others`, no maximum of `sets` exceeds that of `others`. */
  lemma MaxCountAtMost(sets: seq<seq<Ball>>, others: seq<seq<Ball>>, colour: string)
    requires multiset(sets) <= multiset(others)
    ensures MaxCount(sets, colour) <= MaxCount(others, colour)
  {
    MaxCountIsMaximum(sets, colour);
    MaxCountIsMaximum(others, colour);
    if MaxCount(sets, colour) != IntMin {
      var i :| 0 <= i < |sets| && MaxCount(sets, colour) == LastCount(sets[i], colour);
      assert sets[i] in multiset(others);
      var j :| 0 <= j < |others| && others[j] == sets[i];
    }
  }

  /** Every set of a line that parses is there, in order, and every count fits in an Int. */
  lemma ParsedSets(line: string, sets: seq<seq<Ball>>)
    requires ParseSets(line) == Some(sets)
    ensures |sets| >= 1
    ensures forall i, k :: 0 <= i < |sets| && 0 <= k < |sets[i]| ==> IntMin <= sets[i][k].count <= IntMax
  {
    var pieces := Split(Split(line, ":")[1], ";");
    MapAllPerElement(pieces, ParseSet);
    forall i | 0 <= i < |sets| ensures forall k :: 0 <= k < |sets[i]| ==> IntMin <= sets[i][k].count <= IntMax {
      ParsedCounts(pieces[i], sets[i]);
    }
  }

  lemma ParsedCounts(gameSet: string, balls: seq<Ball>)
    requires ParseSet(gameSet) == Some(balls)
    ensures forall k :: 0 <= k < |balls| ==> IntMin <= balls[k].count <= IntMax
  {
    MapAllPerElement(Split(gameSet, ","), ParseBall);
  }

  /** With no negative count in a parsed line, every maximum and so the power are at least 0. */
  lemma ParsedPowerNonNegative(line: string, sets: seq<seq<Ball>>)
    requires ParseSets(line) == Some(sets)
    requires forall i, k :: 0 <= i < |sets| && 0 <= k < |sets[i]| ==> sets[i][k].count >= 0
    ensures MaxCount(sets, "red") >= 0 && MaxCount(sets, "green") >= 0 && MaxCount(sets, "blue") >= 0
    ensures LinePower(line) == Some(GamePower(sets)) && GamePower(sets) >= 0
  {
    ParsedSets(line, sets);
    var red, green, blue := MaxCount(sets, "red"), MaxCount(sets, "green"), MaxCount(sets, "blue");
    MaxCountNonNegative(sets, "red");
    MaxCountNonNegative(sets, "green");
    MaxCountNonNegative(sets, "blue");
    ProductNonNegative(red, green, blue);
  }

  lemma MaxCountNonNegative(sets: seq<seq<Ball>>, colour: string)
    requires sets != []
    requires forall i, k :: 0 <= i < |sets| && 0 <= k < |sets[i]| ==> sets[i][k].count >= 0
    ensures MaxCount(sets, colour) >= 0
  {
    LastCountBounds(sets[0], colour, 0);
    MaxCountIsMaximum(sets, colour);
  }

  lemma ProductNonNegative(a: int, b: int, c: int)
    requires a >= 0 && b >= 0 && c >= 0
    ensures a * b * c >= 0
  {
    assert a * b >= 0;
  }

  /** A set's count is 0 or one of its entries', so a bound that every entry and 0 meet holds for it. */
  lemma {:induction false} LastCountBounds(balls: seq<Ball>, colour: string, low: int)
    requires low <= 0
    requires forall k :: 0 <= k < |balls| ==> low <= balls[k].count
    ensures low <= LastCount(balls, colour)
  {
    if balls != [] {
      var n := |balls| - 1;
      assert forall k :: 0 <= k < n ==> balls[..n][k] == balls[k];
      LastCountBounds(balls[..n], colour, low);
    }
  }
}
