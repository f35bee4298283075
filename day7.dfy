/**
 * Day 7, "Camel Cards": hands of five cards are ranked by category, then card by card;
 * under the joker rules every J first becomes whichever card of the hand gives the best
 * category, and J is the weakest card in the card-by-card comparison.
 */
module Day7 {
  import opened Wrappers
  import opened Text
  import opened Seqs
  import opened Ordering

  // ---------------------------------------------------------------- card strength

  /** The characters `cardStrength` accepts: the face cards and every digit (`toString().toInt()`). */
  predicate IsCardChar(c: char) {
    c == 'A' || c == 'K' || c == 'Q' || c == 'J' || c == 'T' || IsDigit(c)
  }

  /** The puzzle's card alphabet, from weakest to strongest under the standard rules. */
  const Cards: string := "23456789TJQKA"

  /** `Char.cardStrength(withJoker)`. */
  function CardStrength(c: char, withJoker: bool): (s: int)
    requires IsCardChar(c)
    ensures 0 <= s <= 15
  {
    match c
    case 'A' => 15
    case 'K' => 14
    case 'Q' => 13
    case 'J' => 12 * (if withJoker then 0 else 1)
    case 'T' => 11
    case _ => DigitToInt(c); ToInt([c]).value
  }

  /** A digit card is worth its face value, J is worth 12, or 0 with jokers. */
  lemma CardStrengthTable(c: char, withJoker: bool)
    requires IsCardChar(c)
    ensures IsDigit(c) ==> CardStrength(c, withJoker) == DigitValue(c)
    ensures c == 'A' ==> CardStrength(c, withJoker) == 15
    ensures c == 'K' ==> CardStrength(c, withJoker) == 14
    ensures c == 'Q' ==> CardStrength(c, withJoker) == 13
    ensures c == 'J' ==> CardStrength(c, withJoker) == if withJoker then 0 else 12
    ensures c == 'T' ==> CardStrength(c, withJoker) == 11
  {
    if IsDigit(c) {
      DigitToInt(c);
    }
  }

  /**
   * Under the standard rules strength grows strictly along the alphabet 2..9, T, J, Q, K, A;
   * under the joker rules J drops below every other card and the rest keep their order.
   */
  lemma CardStrengthOrder(i: int, j: int)
    requires 0 <= i < j < |Cards|
    ensures CardStrength(Cards[i], false) < CardStrength(Cards[j], false)
    ensures Cards[i] != 'J' && Cards[j] != 'J' ==> CardStrength(Cards[i], true) < CardStrength(Cards[j], true)
    ensures CardStrength('J', true) < CardStrength(Cards[i], true) || Cards[i] == 'J'
  {
    CardStrengthTable(Cards[i], false);
    CardStrengthTable(Cards[j], false);
    CardStrengthTable(Cards[i], true);
    CardStrengthTable(Cards[j], true);
  }

  /** In either mode no two cards of the alphabet have the same strength. */
  lemma CardStrengthInjective(c: char, d: char, withJoker: bool)
    requires c in Cards && d in Cards
    requires CardStrength(c, withJoker) == CardStrength(d, withJoker)
    ensures c == d
  {
    var i :| 0 <= i < |Cards| && Cards[i] == c;
    var j :| 0 <= j < |Cards| && Cards[j] == d;
    if i < j {
      CardStrengthOrder(i, j);
    } else if j < i {
      CardStrengthOrder(j, i);
    }
  }

  // ---------------------------------------------------------------- hand category

  /** How often each card of `cards` occurs in the hand. */
  function CountsOver(cards: seq<char>, hand: string): (counts: seq<nat>)
    ensures |counts| == |cards|
    ensures forall i :: 0 <= i < |cards| ==> counts[i] == Count(hand, cards[i])
  {
    seq(|cards|, i requires 0 <= i < |cards| => Count(hand, cards[i]))
  }

  /** The values of `groupingBy { it }.eachCount()`: the count of each distinct card, in order of first appearance. */
  function CountValues(hand: string): (counts: seq<nat>)
  {
    CountsOver(Distinct(hand), hand)
  }

  /** The `when` of `String.type()`, applied to the card counts. */
  function CategoryOfCounts(counts: seq<nat>): int
  {
    var isTwoPair := Count(counts, 2) == 2;
    if 5 in counts then 7
    else if 4 in counts then 6
    else if 3 in counts then (if 2 in counts then 5 else 4)
    else if isTwoPair then 3
    else if 2 in counts then 2
    else 1
  }

  /** `String.type()`: the category of a hand, 1 (high card) to 7 (five of a kind). */
  function HandType(hand: string): (t: int)
    ensures 1 <= t <= 7
  {
    CategoryOfCounts(CountValues(hand))
  }

  /** The puzzle's table of categories, keyed by the multiset of card counts (0: no five-card profile). */
  function CategoryOfProfile(profile: multiset<nat>): int
  {
    if profile == multiset{5} then 7
    else if profile == multiset{4, 1} then 6
    else if profile == multiset{3, 2} then 5
    else if profile == multiset{3, 1, 1} then 4
    else if profile == multiset{2, 2, 1} then 3
    else if profile == multiset{2, 1, 1, 1} then 2
    else if profile == multiset{1, 1, 1, 1, 1} then 1
    else 0
  }

  lemma CountPositive(s: string, c: char)
    requires c in s
    ensures Count(s, c) >= 1
  {
    CountIsMultiplicity(s, c);
  }

  lemma {:induction false} SumCountsAfterAppend(cards: seq<char>, hand: string, x: char)
    ensures Sum(CountsOver(cards, hand + [x])) == Sum(CountsOver(cards, hand)) + Count(cards, x)
    decreases |cards|
  {
    if cards != [] {
      var front := cards[..|cards| - 1];
      assert CountsOver(cards, hand + [x])[..|cards| - 1] == CountsOver(front, hand + [x]);
      assert CountsOver(cards, hand)[..|cards| - 1] == CountsOver(front, hand);
      assert (hand + [x])[..|hand|] == hand;
      SumCountsAfterAppend(front, hand, x);
    }
  }

  /** The counts of the distinct cards add up to the length of the hand. */
  lemma {:induction false} SumCountValues(hand: string)
    ensures Sum(CountValues(hand)) == |hand|
    decreases |hand|
  {
    if hand != [] {
      var front, x := hand[..|hand| - 1], hand[|hand| - 1];
      assert hand == front + [x];
      var d := Distinct(front);
      SumCountValues(front);
      SumCountsAfterAppend(d, front, x);
      CountInDistinct(d, x);
      if x !in d {
        assert CountsOver(d + [x], hand) == CountsOver(d, hand) + [Count(hand, x)];
        CountIsMultiplicity(front, x);
        assert hand[..|hand| - 1] == front;
      }
    }
  }

  lemma {:induction false} SumAtLeastLength(counts: seq<nat>)
    requires forall i :: 0 <= i < |counts| ==> counts[i] >= 1
    ensures Sum(counts) >= |counts|
  {
    if counts != [] {
      SumAtLeastLength(counts[..|counts| - 1]);
    }
  }

  /** Multiplicities that tell the seven profiles of the table apart. */
  lemma ProfileMultiplicities()
    ensures multiset{5}[5] == 1 && multiset{4, 1}[4] == 1 && multiset{3, 2}[2] == 1
    ensures multiset{3, 1, 1}[3] == 1 && multiset{2, 2, 1}[2] == 2 && multiset{2, 1, 1, 1}[2] == 1
    ensures multiset{1, 1, 1, 1, 1}[1] == 5
  {
  }

  lemma CountsOfFiveOfAKind(c: seq<nat>)
    requires multiset(c) == multiset{5}
    ensures CategoryOfCounts(c) == 7 == CategoryOfProfile(multiset(c))
  {
    ProfileMultiplicities();
    CountIsMultiplicity(c, 2);
  }

  lemma CountsOfFourOfAKind(c: seq<nat>)
    requires multiset(c) == multiset{4, 1}
    ensures CategoryOfCounts(c) == 6 == CategoryOfProfile(multiset(c))
  {
    ProfileMultiplicities();
    CountIsMultiplicity(c, 2);
  }

  lemma CountsOfFullHouse(c: seq<nat>)
    requires multiset(c) == multiset{3, 2}
    ensures CategoryOfCounts(c) == 5 == CategoryOfProfile(multiset(c))
  {
    ProfileMultiplicities();
    CountIsMultiplicity(c, 2);
  }

  lemma CountsOfThreeOfAKind(c: seq<nat>)
    requires multiset(c) == multiset{3, 1, 1}
    ensures CategoryOfCounts(c) == 4 == CategoryOfProfile(multiset(c))
  {
    ProfileMultiplicities();
    CountIsMultiplicity(c, 2);
  }

  lemma CountsOfTwoPair(c: seq<nat>)
    requires multiset(c) == multiset{2, 2, 1}
    ensures CategoryOfCounts(c) == 3 == CategoryOfProfile(multiset(c))
  {
    ProfileMultiplicities();
    CountIsMultiplicity(c, 2);
  }

  lemma CountsOfOnePair(c: seq<nat>)
    requires multiset(c) == multiset{2, 1, 1, 1}
    ensures CategoryOfCounts(c) == 2 == CategoryOfProfile(multiset(c))
  {
    ProfileMultiplicities();
    CountIsMultiplicity(c, 2);
  }

  lemma CountsOfHighCard(c: seq<nat>)
    requires multiset(c) == multiset{1, 1, 1, 1, 1}
    ensures CategoryOfCounts(c) == 1 == CategoryOfProfile(multiset(c))
  {
    ProfileMultiplicities();
    CountIsMultiplicity(c, 2);
  }

  lemma ProfileTableOfTwo(c: seq<nat>)
    requires |c| == 2 && c[0] >= 1 && c[1] >= 1 && Sum(c) == 5
    ensures CategoryOfCounts(c) == CategoryOfProfile(multiset(c))
  {
    TwoCountsProfile(c);
    if multiset(c) == multiset{4, 1} {
      CountsOfFourOfAKind(c);
    } else {
      CountsOfFullHouse(c);
    }
  }

  /** Two distinct cards in five: a four of a kind or a full house. */
  lemma TwoCountsProfile(c: seq<nat>)
    requires |c| == 2 && c[0] >= 1 && c[1] >= 1 && Sum(c) == 5
    ensures multiset(c) == multiset{4, 1} || multiset(c) == multiset{3, 2}
  {
    assert Sum(c) == c[0] + c[1] by {
      assert c[..1][..0] == [];
      assert Sum(c) == Sum(c[..1]) + c[1];
      assert Sum(c[..1]) == Sum(c[..0]) + c[0];
    }
    assert multiset(c) == multiset{c[0], c[1]} by {
      assert c == [c[0], c[1]];
    }
    if c[0] == 1 || c[0] == 4 {
      assert multiset{c[0], c[1]} == multiset{4, 1};
    } else {
      assert multiset{c[0], c[1]} == multiset{3, 2};
    }
  }

  lemma ProfileTableOfThree(c: seq<nat>)
    requires |c| == 3 && c[0] >= 1 && c[1] >= 1 && c[2] >= 1 && Sum(c) == 5
    ensures CategoryOfCounts(c) == CategoryOfProfile(multiset(c))
  {
    ThreeCountsProfile(c);
    if multiset(c) == multiset{3, 1, 1} {
      CountsOfThreeOfAKind(c);
    } else {
      CountsOfTwoPair(c);
    }
  }

  /** Three distinct cards in five: a three of a kind or two pairs. */
  lemma ThreeCountsProfile(c: seq<nat>)
    requires |c| == 3 && c[0] >= 1 && c[1] >= 1 && c[2] >= 1 && Sum(c) == 5
    ensures multiset(c) == multiset{3, 1, 1} || multiset(c) == multiset{2, 2, 1}
  {
    SumOfThree(c);
    MultisetOfThree(c);
    ThreeParts(c[0], c[1], c[2]);
  }

  lemma SumOfThree(c: seq<nat>)
    requires |c| == 3
    ensures Sum(c) == c[0] + c[1] + c[2]
  {
    assert c[..2][..1] == c[..1];
    assert c[..1][..0] == [];
    assert Sum(c) == Sum(c[..2]) + c[2];
    assert Sum(c[..2]) == Sum(c[..1]) + c[1];
    assert Sum(c[..1]) == Sum(c[..0]) + c[0];
  }

  lemma MultisetOfThree(c: seq<nat>)
    requires |c| == 3
    ensures multiset(c) == multiset{c[0], c[1], c[2]}
  {
    assert c == [c[0], c[1], c[2]];
  }

  lemma SumOfFour(c: seq<nat>)
    requires |c| == 4
    ensures Sum(c) == c[0] + c[1] + c[2] + c[3]
  {
    assert c[..3][..2] == c[..2];
    assert c[..2][..1] == c[..1];
    assert c[..1][..0] == [];
    assert Sum(c) == Sum(c[..3]) + c[3];
    assert Sum(c[..3]) == Sum(c[..2]) + c[2];
    assert Sum(c[..2]) == Sum(c[..1]) + c[1];
    assert Sum(c[..1]) == Sum(c[..0]) + c[0];
  }

  lemma MultisetOfFour(c: seq<nat>)
    requires |c| == 4
    ensures multiset(c) == multiset{c[0], c[1], c[2], c[3]}
  {
    assert c == [c[0], c[1], c[2], c[3]];
  }

  /** Five split into three positive parts. */
  lemma ThreeParts(a: nat, b: nat, d: nat)
    requires a >= 1 && b >= 1 && d >= 1 && a + b + d == 5
    ensures multiset{a, b, d} == multiset{3, 1, 1} || multiset{a, b, d} == multiset{2, 2, 1}
  {
    if a == 1 && b == 1 {
      assert multiset{a, b, d} == multiset{3, 1, 1};
    } else if a == 1 && b == 2 {
      assert multiset{a, b, d} == multiset{2, 2, 1};
    } else if a == 1 {
      assert multiset{a, b, d} == multiset{3, 1, 1};
    } else if a == 2 && b == 1 {
      assert multiset{a, b, d} == multiset{2, 2, 1};
    } else if a == 2 {
      assert multiset{a, b, d} == multiset{2, 2, 1};
    } else {
      assert multiset{a, b, d} == multiset{3, 1, 1};
    }
  }

  lemma ProfileTableOfFour(c: seq<nat>)
    requires |c| == 4 && c[0] >= 1 && c[1] >= 1 && c[2] >= 1 && c[3] >= 1 && Sum(c) == 5
    ensures CategoryOfCounts(c) == CategoryOfProfile(multiset(c))
  {
    FourCountsProfile(c);
    CountsOfOnePair(c);
  }

  /** Four distinct cards in five: one pair. */
  lemma FourCountsProfile(c: seq<nat>)
    requires |c| == 4 && c[0] >= 1 && c[1] >= 1 && c[2] >= 1 && c[3] >= 1 && Sum(c) == 5
    ensures multiset(c) == multiset{2, 1, 1, 1}
  {
    SumOfFour(c);
    MultisetOfFour(c);
    FourParts(c[0], c[1], c[2], c[3]);
  }

  /** Five split into four positive parts: one pair. */
  lemma FourParts(a: nat, b: nat, d: nat, e: nat)
    requires a >= 1 && b >= 1 && d >= 1 && e >= 1 && a + b + d + e == 5
    ensures multiset{a, b, d, e} == multiset{2, 1, 1, 1}
  {
    if a == 2 {
      assert multiset{a, b, d, e} == multiset{2, 1, 1, 1};
    } else if b == 2 {
      assert multiset{a, b, d, e} == multiset{2, 1, 1, 1};
    } else if d == 2 {
      assert multiset{a, b, d, e} == multiset{2, 1, 1, 1};
    } else {
      assert multiset{a, b, d, e} == multiset{2, 1, 1, 1};
    }
  }

  lemma ProfileTableOfFive(c: seq<nat>)
    requires |c| == 5 && c[0] >= 1 && c[1] >= 1 && c[2] >= 1 && c[3] >= 1 && c[4] >= 1 && Sum(c) == 5
    ensures CategoryOfCounts(c) == CategoryOfProfile(multiset(c))
  {
    assert c[..4][..3] == c[..3];
    assert c[..3][..2] == c[..2];
    assert c[..2][..1] == c[..1];
    assert c[..1][..0] == [];
    assert Sum(c) == Sum(c[..4]) + c[4];
    assert Sum(c[..4]) == Sum(c[..3]) + c[3];
    assert Sum(c[..3]) == Sum(c[..2]) + c[2];
    assert Sum(c[..2]) == Sum(c[..1]) + c[1];
    assert Sum(c[..1]) == Sum(c[..0]) + c[0];
    assert c == [1, 1, 1, 1, 1];
    CountsOfHighCard(c);
  }

  /** On positive counts adding up to 5 the `when` of `type()` agrees with the puzzle's table. */
  lemma ProfileTable(counts: seq<nat>)
    requires forall i :: 0 <= i < |counts| ==> counts[i] >= 1
    requires Sum(counts) == 5
    ensures CategoryOfCounts(counts) == CategoryOfProfile(multiset(counts))
  {
    SumAtLeastLength(counts);
    var n := |counts|;
    if n == 1 {
      assert counts == [5];
      CountsOfFiveOfAKind(counts);
    } else if n == 2 {
      ProfileTableOfTwo(counts);
    } else if n == 3 {
      ProfileTableOfThree(counts);
    } else if n == 4 {
      ProfileTableOfFour(counts);
    } else {
      ProfileTableOfFive(counts);
    }
  }

  /** `type()` classifies each five-card hand by the multiset of its card counts, as the puzzle's table does. */
  lemma {:induction false} HandTypeMatchesTable(hand: string)
    requires |hand| == 5
    ensures CategoryOfProfile(multiset(CountValues(hand))) == HandType(hand)
  {
    SumCountValues(hand);
    var counts := CountValues(hand);
    forall i | 0 <= i < |counts| ensures counts[i] >= 1 {
      CountPositive(hand, Distinct(hand)[i]);
    }
    ProfileTable(counts);
  }

  /** `CategoryOfCounts` looks only at which counts occur and how often 2 occurs. */
  lemma CategoryOfCountsOrderFree(c1: seq<nat>, c2: seq<nat>)
    requires multiset(c1) == multiset(c2)
    ensures CategoryOfCounts(c1) == CategoryOfCounts(c2)
  {
    CountIsMultiplicity(c1, 2);
    CountIsMultiplicity(c2, 2);
    forall x ensures x in c1 <==> x in c2 {
      assert x in c1 <==> x in multiset(c1);
      assert x in c2 <==> x in multiset(c2);
    }
  }

  lemma CountsOverAppend(a: seq<char>, b: seq<char>, hand: string)
    ensures CountsOver(a + b, hand) == CountsOver(a, hand) + CountsOver(b, hand)
  {
  }

  /** Taking the last card of `d1` out of `d2` leaves two listings of the same remaining cards. */
  lemma SameCardsAfterRemoval(d1: seq<char>, d2: seq<char>, k: int, front: seq<char>, rest: seq<char>)
    requires NoDuplicates(d1) && NoDuplicates(d2)
    requires forall x :: x in d1 <==> x in d2
    requires |d1| > 0 && 0 <= k < |d2| && d2[k] == d1[|d1| - 1]
    requires front == d1[..|d1| - 1] && rest == d2[..k] + d2[k + 1..]
    ensures NoDuplicates(rest)
    ensures forall y :: y in front <==> y in rest
  {
    var n := |d1| - 1;
    var x := d1[n];
    assert d2 == d2[..k] + [x] + d2[k + 1..];
    assert d1 == d1[..n] + [x];
    forall i, j | 0 <= i < j < |rest| ensures rest[i] != rest[j] {
      var i' := if i < k then i else i + 1;
      var j' := if j < k then j else j + 1;
      assert rest[i] == d2[i'] && rest[j] == d2[j'];
    }
    forall y ensures y in d1[..n] <==> y in rest {
      if y in d1[..n] {
        var i :| 0 <= i < n && d1[i] == y;
        assert y != x;
        assert y in d2[..k] + [x] + d2[k + 1..];
      }
      if y in rest {
        var j :| 0 <= j < |rest| && rest[j] == y;
        if j < k {
          assert rest[j] == d2[j];
        } else {
          assert rest[j] == d2[j + 1];
        }
        assert y != x;
        assert y in d1[..n] + [x];
      }
    }
  }

  /** Over two repetition-free listings of the same cards the counts are the same multiset. */
  lemma {:induction false} CountsOverReorder(d1: seq<char>, d2: seq<char>, hand: string)
    requires NoDuplicates(d1) && NoDuplicates(d2)
    requires forall x :: x in d1 <==> x in d2
    ensures multiset(CountsOver(d1, hand)) == multiset(CountsOver(d2, hand))
    decreases |d1|
  {
    if d1 == [] {
      forall y ensures multiset(d2)[y] == 0 {
        assert y !in d1;
      }
      assert multiset(d2) == multiset{};
    } else {
      var n := |d1| - 1;
      var x := d1[n];
      assert x in d1;
      var k :| 0 <= k < |d2| && d2[k] == x;
      var rest1 := d1[..n];
      var rest2 := d2[..k] + d2[k + 1..];
      SameCardsAfterRemoval(d1, d2, k, rest1, rest2);
      CountsOverReorder(rest1, rest2, hand);
      assert d1[..n] + d1[n + 1..] == rest1;
      CountsOverRemoveAt(d1, n, hand);
      CountsOverRemoveAt(d2, k, hand);
    }
  }

  /** Taking one card kind out of the list takes its count out of the counts. */
  lemma CountsOverRemoveAt(d: seq<char>, k: nat, hand: string)
    requires k < |d|
    ensures multiset(CountsOver(d, hand)) ==
      multiset(CountsOver(d[..k] + d[k + 1..], hand)) + multiset(CountsOver([d[k]], hand))
  {
    assert d == d[..k] + [d[k]] + d[k + 1..];
    CountsOverAppend(d[..k] + [d[k]], d[k + 1..], hand);
    CountsOverAppend(d[..k], [d[k]], hand);
    CountsOverAppend(d[..k], d[k + 1..], hand);
  }

  /** `type()` does not depend on the order of the cards in the hand. */
  lemma HandTypeOrderFree(h1: string, h2: string)
    requires multiset(h1) == multiset(h2)
    ensures HandType(h1) == HandType(h2)
  {
    var d1, d2 := Distinct(h1), Distinct(h2);
    forall x ensures x in d1 <==> x in d2 {
      assert x in h1 <==> x in multiset(h1);
      assert x in h2 <==> x in multiset(h2);
    }
    forall i | 0 <= i < |d2| ensures CountsOver(d2, h1)[i] == CountsOver(d2, h2)[i] {
      CountIsMultiplicity(h1, d2[i]);
      CountIsMultiplicity(h2, d2[i]);
    }
    assert CountsOver(d2, h1) == CountsOver(d2, h2);
    CountsOverReorder(d1, d2, h1);
    CategoryOfCountsOrderFree(CountValues(h1), CountValues(h2));
  }

  /** All five cards of a uniform hand are the same: five of a kind. */
  lemma {:induction false} UniformCounts(hand: string, c: char)
    requires |hand| > 0 && forall i :: 0 <= i < |hand| ==> hand[i] == c
    ensures Distinct(hand) == [c]
    ensures Count(hand, c) == |hand|
  {
    if |hand| > 1 {
      UniformCounts(hand[..|hand| - 1], c);
    } else {
      assert hand[..0] == [];
    }
  }

  lemma FiveOfAKind(hand: string, c: char)
    requires |hand| == 5 && forall i :: 0 <= i < |hand| ==> hand[i] == c
    ensures HandType(hand) == 7
  {
    UniformCounts(hand, c);
    assert CountValues(hand) == [5];
  }

  // ---------------------------------------------------------------- comparators

  /** A hand as the comparators hold it: the best joker substitution and the hand as dealt. */
  datatype ImprovedHand = ImprovedHand(improved: string, original: string)

  /** What the comparators may ask of a hand without failing: five leading card characters. */
  predicate Comparable(x: ImprovedHand) {
    |x.original| >= 5 && forall i :: 0 <= i < 5 ==> IsCardChar(x.original[i])
  }

  /** The key of `comparingInt`: the improved category with jokers, the dealt category without. */
  function PrimaryKey(x: ImprovedHand, withJoker: bool): int
  {
    if withJoker then HandType(x.improved) else HandType(x.original)
  }

  function Strength(x: ImprovedHand, withJoker: bool, i: int): int
    requires Comparable(x) && 0 <= i < 5
  {
    CardStrength(x.original[i], withJoker)
  }

  /** The chain of `thenComparingInt` from card `i` on, as `compareCards` builds it. */
  function CompareFrom(x: ImprovedHand, y: ImprovedHand, withJoker: bool, i: nat): int
    requires Comparable(x) && Comparable(y) && i <= 5
    decreases 5 - i
  {
    if i == 5 then 0
    else
      var c := CompareInt(Strength(x, withJoker, i), Strength(y, withJoker, i));
      if c != 0 then c else CompareFrom(x, y, withJoker, i + 1)
  }

  /** `comparingInt { key }.compareCards(withJoker)`: the category key first, then the five cards in order. */
  function Compare(x: ImprovedHand, y: ImprovedHand, withJoker: bool): int
    requires Comparable(x) && Comparable(y)
  {
    var c := CompareInt(PrimaryKey(x, withJoker), PrimaryKey(y, withJoker));
    if c != 0 then c else CompareFrom(x, y, withJoker, 0)
  }

  /** The cards from `i` on are equal in strength up to position `j`. */
  predicate StrengthsAgree(x: ImprovedHand, y: ImprovedHand, withJoker: bool, i: int, j: int)
    requires Comparable(x) && Comparable(y) && 0 <= i <= j <= 5
  {
    forall k :: i <= k < j ==> Strength(x, withJoker, k) == Strength(y, withJoker, k)
  }

  /** The tie-break is the lexicographic order of the strengths of the cards from `i` on. */
  lemma {:induction false} CompareFromLexicographic(x: ImprovedHand, y: ImprovedHand, withJoker: bool, i: nat)
    requires Comparable(x) && Comparable(y) && i <= 5
    ensures CompareFrom(x, y, withJoker, i) == 0 <==> StrengthsAgree(x, y, withJoker, i, 5)
    ensures CompareFrom(x, y, withJoker, i) < 0 <==>
      exists j :: i <= j < 5 && StrengthsAgree(x, y, withJoker, i, j) && Strength(x, withJoker, j) < Strength(y, withJoker, j)
    ensures CompareFrom(x, y, withJoker, i) == -CompareFrom(y, x, withJoker, i)
    decreases 5 - i
  {
    if i < 5 {
      CompareFromLexicographic(x, y, withJoker, i + 1);
      if Strength(x, withJoker, i) == Strength(y, withJoker, i) {
        if CompareFrom(x, y, withJoker, i + 1) < 0 {
          var j :| i + 1 <= j < 5 && StrengthsAgree(x, y, withJoker, i + 1, j) && Strength(x, withJoker, j) < Strength(y, withJoker, j);
          assert StrengthsAgree(x, y, withJoker, i, j);
        }
      } else if Strength(x, withJoker, i) < Strength(y, withJoker, i) {
        assert StrengthsAgree(x, y, withJoker, i, i);
      }
    }
  }

  /**
   * `compareCards` orders hands by the key first and, when the keys tie, lexicographically by the
   * strengths of the five dealt cards; it returns 0 exactly when the key and all five strengths agree.
   */
  lemma CompareLexicographic(x: ImprovedHand, y: ImprovedHand, withJoker: bool)
    requires Comparable(x) && Comparable(y)
    ensures Compare(x, y, withJoker) == 0 <==>
      PrimaryKey(x, withJoker) == PrimaryKey(y, withJoker) && StrengthsAgree(x, y, withJoker, 0, 5)
    ensures Compare(x, y, withJoker) < 0 <==>
      PrimaryKey(x, withJoker) < PrimaryKey(y, withJoker) ||
      (PrimaryKey(x, withJoker) == PrimaryKey(y, withJoker) &&
       exists j :: 0 <= j < 5 && StrengthsAgree(x, y, withJoker, 0, j) && Strength(x, withJoker, j) < Strength(y, withJoker, j))
    ensures Compare(x, y, withJoker) == -Compare(y, x, withJoker)
  {
    CompareFromLexicographic(x, y, withJoker, 0);
  }

  /** A five-card hand over the puzzle's alphabet. */
  predicate IsHand(h: string) {
    |h| == 5 && forall i :: 0 <= i < 5 ==> h[i] in Cards
  }

  lemma CardsAreCardChars(c: char)
    requires c in Cards
    ensures IsCardChar(c)
  {
  }

  lemma HandIsComparable(x: ImprovedHand)
    requires IsHand(x.original)
    ensures Comparable(x)
  {
    forall i | 0 <= i < 5 ensures IsCardChar(x.original[i]) {
      CardsAreCardChars(x.original[i]);
    }
  }

  lemma AgreeingStrengthsSameHand(x: ImprovedHand, y: ImprovedHand, withJoker: bool)
    requires IsHand(x.original) && IsHand(y.original) && Comparable(x) && Comparable(y)
    requires StrengthsAgree(x, y, withJoker, 0, 5)
    ensures x.original == y.original
  {
    forall i | 0 <= i < 5 ensures x.original[i] == y.original[i] {
      assert Strength(x, withJoker, i) == Strength(y, withJoker, i);
      CardStrengthInjective(x.original[i], y.original[i], withJoker);
    }
  }

  /** For hands over the alphabet, in either mode, a tie means the same dealt hand. */
  lemma CompareTieMeansSameHand(x: ImprovedHand, y: ImprovedHand, withJoker: bool)
    requires IsHand(x.original) && IsHand(y.original)
    ensures Comparable(x) && Comparable(y)
    ensures Compare(x, y, withJoker) == 0 ==> x.original == y.original
  {
    HandIsComparable(x);
    HandIsComparable(y);
    if Compare(x, y, withJoker) == 0 {
      CompareLexicographic(x, y, withJoker);
      AgreeingStrengthsSameHand(x, y, withJoker);
    }
  }

  // ---------------------------------------------------------------- sort key

  /** 16 to the power of the number of cards from `i` to 4: the bound of their base-16 number. */
  function Span(i: int): nat
  {
    if i <= 0 then 0x10_0000 else if i == 1 then 0x1_0000 else if i == 2 then 0x1000 else if i == 3 then 0x100 else if i == 4 then 0x10 else 1
  }

  /** The strengths of cards `i` to 4 read as a base-16 number, card `i` the most significant digit. */
  function KeyFrom(x: ImprovedHand, withJoker: bool, i: nat): (k: int)
    requires Comparable(x) && i <= 5
    ensures 0 <= k < Span(i)
    decreases 5 - i
  {
    if i == 5 then 0
    else if i == 4 then Strength(x, withJoker, 4) + KeyFrom(x, withJoker, 5)
    else if i == 3 then Strength(x, withJoker, 3) * 0x10 + KeyFrom(x, withJoker, 4)
    else if i == 2 then Strength(x, withJoker, 2) * 0x100 + KeyFrom(x, withJoker, 3)
    else if i == 1 then Strength(x, withJoker, 1) * 0x1000 + KeyFrom(x, withJoker, 2)
    else Strength(x, withJoker, 0) * 0x1_0000 + KeyFrom(x, withJoker, 1)
  }

  /** One integer per hand whose order is the comparator's: the category, then the five strengths. */
  function SortKey(x: ImprovedHand, withJoker: bool): int
    requires Comparable(x)
  {
    PrimaryKey(x, withJoker) * 0x10_0000 + KeyFrom(x, withJoker, 0)
  }

  /** One digit of the sort key: a smaller strength at card `i` wins whatever follows, an equal one defers. */
  lemma KeyDigit(x: ImprovedHand, y: ImprovedHand, withJoker: bool, i: nat)
    requires Comparable(x) && Comparable(y) && i < 5
    ensures Strength(x, withJoker, i) < Strength(y, withJoker, i) ==> KeyFrom(x, withJoker, i) < KeyFrom(y, withJoker, i)
    ensures Strength(x, withJoker, i) == Strength(y, withJoker, i) ==>
      KeyFrom(x, withJoker, i) - KeyFrom(y, withJoker, i) == KeyFrom(x, withJoker, i + 1) - KeyFrom(y, withJoker, i + 1)
  {
    KeyFromStep(x, withJoker, i);
    KeyFromStep(y, withJoker, i);
    DigitOrder(Strength(x, withJoker, i), Strength(y, withJoker, i),
      KeyFrom(x, withJoker, i + 1), KeyFrom(y, withJoker, i + 1), Span(i + 1));
  }

  /** Card `i` is the digit in front of the key of the cards after it. */
  lemma KeyFromStep(x: ImprovedHand, withJoker: bool, i: nat)
    requires Comparable(x) && i < 5
    ensures KeyFrom(x, withJoker, i) == Strength(x, withJoker, i) * Span(i + 1) + KeyFrom(x, withJoker, i + 1)
  {
  }

  /** A smaller leading digit gives a smaller number; equal leading digits leave the rest to decide. */
  lemma DigitOrder(a: int, b: int, ka: int, kb: int, span: int)
    requires 0 <= ka < span && 0 <= kb < span
    ensures a < b ==> a * span + ka < b * span + kb
    ensures a == b ==> (a * span + ka) - (b * span + kb) == ka - kb
  {
    if a < b {
      MulMonotone(a + 1, b, span);
      assert (a + 1) * span == a * span + span;
    }
  }

  lemma MulMonotone(p: int, q: int, s: int)
    requires p <= q && s >= 0
    ensures p * s <= q * s
  {
    assert q * s - p * s == (q - p) * s;
  }

  lemma {:induction false} CompareFromIsKeyOrder(x: ImprovedHand, y: ImprovedHand, withJoker: bool, i: nat)
    requires Comparable(x) && Comparable(y) && i <= 5
    ensures CompareFrom(x, y, withJoker, i) == CompareInt(KeyFrom(x, withJoker, i), KeyFrom(y, withJoker, i))
    decreases 5 - i
  {
    if i < 5 {
      CompareFromIsKeyOrder(x, y, withJoker, i + 1);
      KeyDigit(x, y, withJoker, i);
      KeyDigit(y, x, withJoker, i);
    }
  }

  /** `compareCards` compares hands exactly as their sort keys compare. */
  lemma CompareIsKeyOrder(x: ImprovedHand, y: ImprovedHand, withJoker: bool)
    requires Comparable(x) && Comparable(y)
    ensures Compare(x, y, withJoker) == CompareInt(SortKey(x, withJoker), SortKey(y, withJoker))
  {
    CompareFromIsKeyOrder(x, y, withJoker, 0);
  }

  /** Comparing is transitive, so sorting and taking a maximum with it are well defined. */
  lemma CompareTransitive(x: ImprovedHand, y: ImprovedHand, z: ImprovedHand, withJoker: bool)
    requires Comparable(x) && Comparable(y) && Comparable(z)
    ensures Compare(x, y, withJoker) <= 0 && Compare(y, z, withJoker) <= 0 ==> Compare(x, z, withJoker) <= 0
    ensures Compare(x, y, withJoker) < 0 && Compare(y, z, withJoker) <= 0 ==> Compare(x, z, withJoker) < 0
    ensures Compare(x, y, withJoker) <= 0 && Compare(y, z, withJoker) < 0 ==> Compare(x, z, withJoker) < 0
  {
    CompareIsKeyOrder(x, y, withJoker);
    CompareIsKeyOrder(y, z, withJoker);
    CompareIsKeyOrder(x, z, withJoker);
  }

  /** The comparator as a function value, for the hands it is applied to (elsewhere it is never called). */
  function Comparator(withJoker: bool): (ImprovedHand, ImprovedHand) -> int
  {
    (x: ImprovedHand, y: ImprovedHand) => if Comparable(x) && Comparable(y) then Compare(x, y, withJoker) else 0
  }

  function KeyOf(withJoker: bool): ImprovedHand -> int
  {
    (x: ImprovedHand) => if Comparable(x) then SortKey(x, withJoker) else 0
  }

  predicate AllComparable(hs: seq<ImprovedHand>) {
    forall i :: 0 <= i < |hs| ==> Comparable(hs[i])
  }

  lemma ComparatorOrderedBy(hs: seq<ImprovedHand>, withJoker: bool)
    requires AllComparable(hs)
    ensures OrderedBy(Comparator(withJoker), KeyOf(withJoker), hs)
  {
    forall x, y | x in hs && y in hs
      ensures Comparator(withJoker)(x, y) == CompareInt(KeyOf(withJoker)(x), KeyOf(withJoker)(y))
    {
      CompareIsKeyOrder(x, y, withJoker);
    }
  }

  // ---------------------------------------------------------------- joker substitution

  /** `this.toCharArray().distinct().map { ImprovedHand(this.replace('J', it), original = this) }`. */
  function Candidates(hand: string): seq<ImprovedHand>
  {
    var d := Distinct(hand);
    seq(|d|, i requires 0 <= i < |d| => ImprovedHand(ReplaceChar(hand, 'J', d[i]), hand))
  }

  /** What `improve` needs in order not to fail: the comparators may look at the first five cards. */
  predicate HandComparable(hand: string) {
    |hand| >= 5 && forall i :: 0 <= i < 5 ==> IsCardChar(hand[i])
  }

  lemma CandidatesComparable(hand: string)
    requires HandComparable(hand)
    ensures |Candidates(hand)| > 0 && AllComparable(Candidates(hand))
  {
    assert hand[0] in Distinct(hand);
  }

  /** `String.improve()`: the candidate that `maxWith` picks under the joker comparator. */
  function Improve(hand: string): ImprovedHand
    requires HandComparable(hand)
  {
    CandidatesComparable(hand);
    var cs := Candidates(hand);
    cs[MaxWithIndex(cs, Comparator(true))]
  }

  /** Candidates share their dealt hand, so the joker comparator compares their improved categories only. */
  lemma CompareCandidates(x: ImprovedHand, y: ImprovedHand)
    requires Comparable(x) && Comparable(y) && x.original == y.original
    ensures Compare(x, y, true) == CompareInt(HandType(x.improved), HandType(y.improved))
  {
    CompareFromLexicographic(x, y, true, 0);
  }

  /** `improved` is `hand` with every J replaced by the `k`-th distinct card of the hand. */
  predicate SubstitutesCard(hand: string, improved: string, k: int) {
    0 <= k < |Distinct(hand)| && improved == ReplaceChar(hand, 'J', Distinct(hand)[k])
  }

  /** The category of `hand` with every J replaced by `c`. */
  function Substituted(hand: string, c: char): int
  {
    HandType(ReplaceChar(hand, 'J', c))
  }

  lemma ImproveMaximizes(hand: string)
    requires HandComparable(hand)
    ensures |Candidates(hand)| > 0 && AllComparable(Candidates(hand))
    ensures var cs := Candidates(hand); var k := MaxWithIndex(cs, Comparator(true));
      (forall i :: 0 <= i < |cs| ==> HandType(cs[i].improved) <= HandType(cs[k].improved)) &&
      (forall i :: 0 <= i < k ==> HandType(cs[i].improved) < HandType(cs[k].improved))
  {
    CandidatesComparable(hand);
    var cs := Candidates(hand);
    var k := MaxWithIndex(cs, Comparator(true));
    ComparatorOrderedBy(cs, true);
    MaxWithIsFirstGreatest(cs, Comparator(true), KeyOf(true));
    forall i | 0 <= i < |cs| ensures HandType(cs[i].improved) <= HandType(cs[k].improved) {
      assert Comparator(true)(cs[i], cs[k]) <= 0;
      CompareCandidates(cs[i], cs[k]);
    }
    forall i | 0 <= i < k ensures HandType(cs[i].improved) < HandType(cs[k].improved) {
      assert Comparator(true)(cs[i], cs[k]) < 0;
      CompareCandidates(cs[i], cs[k]);
    }
  }

  /**
   * `improve` keeps the dealt hand and replaces every J by one card that the hand holds: the first
   * distinct card, in order of appearance, whose substitution gives the greatest category.
   */
  lemma ImproveIsFirstBest(hand: string)
    requires HandComparable(hand)
    ensures Improve(hand).original == hand
    ensures exists k :: SubstitutesCard(hand, Improve(hand).improved, k) &&
                        forall i :: 0 <= i < k ==> Substituted(hand, Distinct(hand)[i]) < HandType(Improve(hand).improved)
  {
    ImproveMaximizes(hand);
    var cs, d := Candidates(hand), Distinct(hand);
    var k := MaxWithIndex(cs, Comparator(true));
    assert SubstitutesCard(hand, Improve(hand).improved, k);
    forall i | 0 <= i < k ensures Substituted(hand, d[i]) < HandType(cs[k].improved) {
      assert cs[i].improved == ReplaceChar(hand, 'J', d[i]);
    }
  }

  /** No card of the hand, put in place of the jokers, gives a better category than `improve` does. */
  lemma ImproveIsBest(hand: string)
    requires HandComparable(hand)
    ensures forall c :: c in hand ==> Substituted(hand, c) <= HandType(Improve(hand).improved)
  {
    ImproveMaximizes(hand);
    var cs, d := Candidates(hand), Distinct(hand);
    var k := MaxWithIndex(cs, Comparator(true));
    forall c | c in hand ensures Substituted(hand, c) <= HandType(cs[k].improved) {
      var i :| 0 <= i < |d| && d[i] == c;
      assert cs[i].improved == ReplaceChar(hand, 'J', c);
    }
  }

  /** A hand without J is its own improvement; with J the category never drops, since J-for-J is a candidate. */
  lemma ImproveNeverWorse(hand: string)
    requires HandComparable(hand)
    ensures 'J' !in hand ==> Improve(hand).improved == hand
    ensures HandType(hand) <= HandType(Improve(hand).improved)
  {
    ImproveIsFirstBest(hand);
    var k :| SubstitutesCard(hand, Improve(hand).improved, k);
    if 'J' in hand {
      ImproveIsBest(hand);
      ReplaceCharIdentity(hand, 'J', 'J');
    } else {
      ReplaceCharIdentity(hand, 'J', Distinct(hand)[k]);
    }
  }

  /** Five jokers stay five jokers and make five of a kind. */
  lemma ImproveFiveJokers()
    ensures HandComparable("JJJJJ")
    ensures Improve("JJJJJ") == ImprovedHand("JJJJJ", "JJJJJ")
    ensures HandType(Improve("JJJJJ").improved) == 7
  {
    var h := "JJJJJ";
    UniformCounts(h, 'J');
    ReplaceCharIdentity(h, 'J', 'J');
    FiveOfAKind(h, 'J');
  }

  // ---------------------------------------------------------------- winnings

  /** `it.split(" ").let { it.first() to it.last().toLong() }`: the hand and its bid (None: the bid is no number). */
  function ParseLine(line: string): Option<(string, int)>
  {
    var parts := Split(line, " ");
    match ToLong(parts[|parts| - 1])
    case None => None
    case Some(bid) => Some((parts[0], bid))
  }

  /** A line "hand bid" gives back the hand and the bid's value. */
  lemma ParseLineRoundTrip(hand: string, bid: string)
    requires ' ' !in hand && AllDigits(bid) && |bid| > 0 && DecimalValue(bid) <= LongMax
    ensures ParseLine(hand + " " + bid) == Some((hand, DecimalValue(bid)))
  {
    assert ' ' !in bid by {
      forall i | 0 <= i < |bid| ensures bid[i] != ' ' {
        assert IsDigit(bid[i]);
      }
    }
    SplitAtDelimiter(hand, bid, ' ');
  }

  /** A line the script gets through: a bid that is a number, and a hand `improve` and the comparators accept. */
  predicate LineOk(line: string) {
    ParseLine(line).Some? && HandComparable(ParseLine(line).value.0)
  }

  /** `hand.improve() to bid` for one line. */
  function LinePair(line: string): (ImprovedHand, int)
    requires LineOk(line)
  {
    (Improve(ParseLine(line).value.0), ParseLine(line).value.1)
  }

  /** One line's pair, or None when the line makes the script fail. */
  function LineEntry(line: string): Option<(ImprovedHand, int)>
  {
    if LineOk(line) then Some(LinePair(line)) else None
  }

  /** The hand part of a line: the text before its first space. */
  function LineHand(line: string): string
  {
    Split(line, " ")[0]
  }

  /** The pairs fed to `associate`, one per line in order; None when some line makes the script fail. */
  function HandBids(lines: seq<string>): Option<seq<(ImprovedHand, int)>>
  {
    MapAll(lines, LineEntry)
  }

  /** The pairs exist exactly when every line is fine, and then there is one per line, in order. */
  lemma HandBidsPerLine(lines: seq<string>)
    ensures HandBids(lines).Some? <==> forall i :: 0 <= i < |lines| ==> LineOk(lines[i])
    ensures HandBids(lines).Some? ==>
      |HandBids(lines).value| == |lines| && forall i :: 0 <= i < |lines| ==> HandBids(lines).value[i] == LinePair(lines[i])
  {
    MapAllPerElement(lines, LineEntry);
  }

  /** A helper: the improved hand remembers the hand it was made from. */
  lemma ImproveKeepsHand(hand: string)
    requires HandComparable(hand)
    ensures Improve(hand).original == hand
  {
    CandidatesComparable(hand);
  }

  /**
   * `sumWinnings`: the hands of the sorted map in ascending comparator order, each weighted by its
   * 1-based position times the bid the hand has in `improvedToBids` itself, summed.
   */
  function SumWinnings(table: seq<(ImprovedHand, int)>, withJoker: bool): (w: int)
    requires AllComparable(Keys(table))
    ensures table == [] ==> w == 0
  {
    ToSortedMapKeys(table, Comparator(withJoker));
    LookupWeightedSum(Keys(ToSortedMap(table, Comparator(withJoker))), table)
  }

  lemma TableComparable(ps: seq<(ImprovedHand, int)>)
    requires AllComparable(Keys(ps))
    ensures AllComparable(Keys(Associate(ps)))
  {
    AssociateKeys(ps);
    forall i | 0 <= i < |Keys(Associate(ps))| ensures Comparable(Keys(Associate(ps))[i]) {
      var x := Keys(Associate(ps))[i];
      assert x in Distinct(Keys(ps));
      var j :| 0 <= j < |ps| && Keys(ps)[j] == x;
    }
  }

  lemma PairsComparable(lines: seq<string>)
    requires HandBids(lines).Some?
    ensures AllComparable(Keys(HandBids(lines).value))
  {
    var ps := HandBids(lines).value;
    HandBidsPerLine(lines);
    forall i | 0 <= i < |ps| ensures Comparable(Keys(ps)[i]) {
      assert ps[i] == LinePair(lines[i]);
      ImproveKeepsHand(ParseLine(lines[i]).value.0);
    }
  }

  /** `main`: both answers, first under the standard rules, then with jokers (None: the script fails). */
  function Winnings(lines: seq<string>): Option<(int, int)>
  {
    match HandBids(lines)
    case None => None
    case Some(ps) =>
      PairsComparable(lines);
      TableComparable(ps);
      var table := Associate(ps);
      Some((SumWinnings(table, false), SumWinnings(table, true)))
  }

  /** Without ties, the winnings give every bid its rank: one plus the number of weaker hands. */
  lemma SumWinningsByRank(table: seq<(ImprovedHand, int)>, withJoker: bool)
    requires AllComparable(Keys(table)) && TieFree(table, Comparator(withJoker))
    ensures SumWinnings(table, withJoker) == RankedSum(table, table, Comparator(withJoker))
  {
    ComparatorOrderedBy(Keys(table), withJoker);
    SortedMapLookupSum(table, Comparator(withJoker), KeyOf(withJoker));
  }

  /** A six-character hand whose first five cards are the same is five of a kind. */
  lemma FiveOfAKindAndOne(hand: string, c: char)
    requires |hand| == 6 && hand[5] != c && forall i :: 0 <= i < 5 ==> hand[i] == c
    ensures HandType(hand) == 7
  {
    var front := hand[..5];
    UniformCounts(front, c);
    assert hand[..5] == front;
    assert Distinct(hand) == [c, hand[5]];
    assert Count(hand, c) == 5;
    assert CountValues(hand)[0] == 5;
  }

  /**
   * The lines "AAAAA2 10" and "AAAAA3 20" tie in both modes: both are five of a kind and their first
   * five cards agree. The sorted map keeps the first hand, and its own bid, 10, is the one weighted.
   */
  lemma TiedHandsUseKeptBid(withJoker: bool)
    ensures var x, y := ImprovedHand("AAAAA2", "AAAAA2"), ImprovedHand("AAAAA3", "AAAAA3");
      AllComparable(Keys([(x, 10), (y, 20)])) && SumWinnings([(x, 10), (y, 20)], withJoker) == 10
  {
    var x, y := ImprovedHand("AAAAA2", "AAAAA2"), ImprovedHand("AAAAA3", "AAAAA3");
    FivesTie(x, y, withJoker);
    assert Keys([(x, 10), (y, 20)]) == [x, y];
    TiedKeysUseFirstValue(x, 10, y, 20, Comparator(withJoker));
  }

  /** Two hands that agree on five cards of the same kind and differ in a sixth tie. */
  lemma FivesTie(x: ImprovedHand, y: ImprovedHand, withJoker: bool)
    requires x == ImprovedHand("AAAAA2", "AAAAA2") && y == ImprovedHand("AAAAA3", "AAAAA3")
    ensures Comparable(x) && Comparable(y) && x != y && Comparator(withJoker)(y, x) == 0
  {
    FiveOfAKindAndOne(x.original, 'A');
    FiveOfAKindAndOne(y.original, 'A');
    assert StrengthsAgree(y, x, withJoker, 0, 5);
    CompareLexicographic(y, x, withJoker);
  }

  /** Every key of the pairs is the improvement of a hand over the alphabet. */
  predicate ImprovedHands(ps: seq<(ImprovedHand, int)>) {
    forall i :: 0 <= i < |ps| ==> IsHand(ps[i].0.original) && HandComparable(ps[i].0.original) && ps[i].0 == Improve(ps[i].0.original)
  }

  /** The keys of `associate` differ, and different hands over the alphabet never tie in either mode. */
  lemma TableTieFree(ps: seq<(ImprovedHand, int)>, withJoker: bool)
    requires ImprovedHands(ps)
    ensures AllComparable(Keys(Associate(ps)))
    ensures TieFree(Associate(ps), Comparator(withJoker))
  {
    var table := Associate(ps);
    AssociateKeys(ps);
    var ks := Keys(table);
    assert forall x :: x in ks ==> x in Keys(ps);
    forall i | 0 <= i < |ks| ensures IsHand(ks[i].original) && HandComparable(ks[i].original) && ks[i] == Improve(ks[i].original) {
      assert ks[i] in Keys(ps);
    }
    forall i | 0 <= i < |ks| ensures Comparable(ks[i]) {
      HandIsComparable(ks[i]);
    }
    forall i, j | 0 <= i < |table| && 0 <= j < |table| && i != j
      ensures Comparator(withJoker)(table[i].0, table[j].0) != 0
    {
      assert ks[i] != ks[j];
      CompareTieMeansSameHand(ks[i], ks[j], withJoker);
    }
  }

  /**
   * For input whose hands are five cards of the alphabet, both answers are the sums of every
   * surviving bid times its rank among the table's hands, in the respective ordering.
   */
  lemma WinningsByRank(lines: seq<string>)
    requires HandBids(lines).Some? && ImprovedHands(HandBids(lines).value)
    ensures var table := Associate(HandBids(lines).value);
      Winnings(lines) == Some((RankedSum(table, table, Comparator(false)), RankedSum(table, table, Comparator(true))))
  {
    var ps := HandBids(lines).value;
    TableTieFree(ps, false);
    TableTieFree(ps, true);
    SumWinningsByRank(Associate(ps), false);
    SumWinningsByRank(Associate(ps), true);
  }

  /** Of several lines with the same hand only the last one's bid is in the table. */
  lemma WinningsKeepLastBid(lines: seq<string>, i: nat)
    requires HandBids(lines).Some? && i < |lines|
    requires forall j :: i < j < |lines| ==> LineHand(lines[j]) != LineHand(lines[i])
    ensures LineOk(lines[i])
    ensures LinePair(lines[i]) in Associate(HandBids(lines).value)
  {
    var ps := HandBids(lines).value;
    HandBidsPerLine(lines);
    forall j | i < j < |ps| ensures ps[j].0 != ps[i].0 {
      ImproveKeepsHand(ParseLine(lines[i]).value.0);
      ImproveKeepsHand(ParseLine(lines[j]).value.0);
    }
    AssociateLastWins(ps, i);
  }
}
