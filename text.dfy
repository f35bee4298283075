/**
 * The parts of the Kotlin standard library that the puzzle scripts use on strings:
 * `split`, `trim`, `isBlank`, `isDigit`, `toInt`/`toLong`, `indexOf`/`lastIndexOf`,
 * `replace`, restricted to ASCII text.
 */
module Text {
  import opened Wrappers

  /** `Char.isDigit()`, restricted to the ASCII digits. */
  predicate IsDigit(c: char) {
    '0' <= c <= '9'
  }

  predicate AllDigits(s: string) {
    forall i :: 0 <= i < |s| ==> IsDigit(s[i])
  }

  function DigitValue(c: char): (d: nat)
    requires IsDigit(c)
    ensures d <= 9
  {
    (c as int) - ('0' as int)
  }

  /** The number a string of decimal digits denotes (0 for the empty string). */
  function DecimalValue(s: string): nat
    requires AllDigits(s)
  {
    if s == [] then 0 else 10 * DecimalValue(s[..|s| - 1]) + DigitValue(s[|s| - 1])
  }

  /** `Char.isWhitespace()`, restricted to ASCII: space, tab to carriage return, and the four separators. */
  predicate IsWhitespace(c: char) {
    c == ' ' || '\t' <= c <= '\r' || '\U{1C}' <= c <= '\U{1F}'
  }

  /** The regular-expression class `\s`: space, tab, line feed, vertical tab, form feed, carriage return. */
  predicate IsRegexSpace(c: char) {
    c == ' ' || '\t' <= c <= '\r'
  }

  /** `String.isBlank()`. */
  predicate IsBlank(s: string) {
    forall i :: 0 <= i < |s| ==> IsWhitespace(s[i])
  }

  const IntMin: int := -0x8000_0000
  const IntMax: int := 0x7fff_ffff
  const LongMin: int := -0x8000_0000_0000_0000
  const LongMax: int := 0x7fff_ffff_ffff_ffff

  /**
   * The grammar `toInt` and `toLong` accept, before the range check: an optional
   * '+' or '-' followed by at least one digit.
   */
  function ParseInteger(s: string): (r: Option<int>)
    ensures r.Some? <==> |s| > 0 && (AllDigits(s) || (|s| > 1 && (s[0] == '-' || s[0] == '+') && AllDigits(s[1..])))
    ensures r.Some? && AllDigits(s) ==> r.value == DecimalValue(s)
    ensures r.Some? && s[0] == '-' ==> r.value == -(DecimalValue(s[1..]) as int)
    ensures r.Some? && s[0] == '+' ==> r.value == DecimalValue(s[1..])
  {
    if |s| == 0 then None
    else if s[0] == '-' || s[0] == '+' then
      if |s| == 1 || !AllDigits(s[1..]) then None
      else Some(if s[0] == '-' then -(DecimalValue(s[1..]) as int) else DecimalValue(s[1..]))
    else if AllDigits(s) then Some(DecimalValue(s))
    else None
  }

  /** `String.toInt()`: fails (None) on a malformed string or a value outside 32 bits. */
  function ToInt(s: string): (r: Option<int>)
    ensures r.Some? <==> ParseInteger(s).Some? && IntMin <= ParseInteger(s).value <= IntMax
    ensures r.Some? ==> r.value == ParseInteger(s).value
  {
    match ParseInteger(s)
    case None => None
    case Some(v) => if IntMin <= v <= IntMax then Some(v) else None
  }

  /** `String.toLong()`: fails (None) on a malformed string or a value outside 64 bits. */
  function ToLong(s: string): (r: Option<int>)
    ensures r.Some? <==> ParseInteger(s).Some? && LongMin <= ParseInteger(s).value <= LongMax
    ensures r.Some? ==> r.value == ParseInteger(s).value
  {
    match ParseInteger(s)
    case None => None
    case Some(v) => if LongMin <= v <= LongMax then Some(v) else None
  }

  /** `c.toString().toInt()` for a digit `c` is the digit's value. */
  lemma DigitToInt(c: char)
    requires IsDigit(c)
    ensures ToInt([c]) == Some(DigitValue(c))
  {
    assert [c][..0] == [];
    assert AllDigits([c]);
    assert DecimalValue([c]) == DigitValue(c);
  }

  /** Two digits written one after the other read as a two-digit number. */
  lemma TwoDigitsToInt(a: char, b: char)
    requires IsDigit(a) && IsDigit(b)
    ensures ToInt([a, b]) == Some(10 * DigitValue(a) + DigitValue(b))
  {
    assert [a, b][..1] == [a] && [a][..0] == [];
    assert AllDigits([a, b]);
    assert DecimalValue([a]) == DigitValue(a);
    assert DecimalValue([a, b]) == 10 * DecimalValue([a]) + DigitValue(b);
  }

  /** `d` occurs in `s` starting at index `i`. */
  predicate OccursAt(s: string, d: string, i: int) {
    0 <= i && i + |d| <= |s| && s[i..i + |d|] == d
  }

  function IndexFrom(s: string, d: string, k: nat): (r: Option<nat>)
    ensures r.Some? ==> k <= r.value && OccursAt(s, d, r.value)
    ensures r.Some? ==> forall i :: k <= i < r.value ==> !OccursAt(s, d, i)
    ensures r.None? ==> forall i :: k <= i ==> !OccursAt(s, d, i)
    decreases |s| - k
  {
    if k + |d| > |s| then None
    else if OccursAt(s, d, k) then Some(k)
    else IndexFrom(s, d, k + 1)
  }

  /** `s.indexOf(d)`: where the first occurrence of `d` starts (None stands for -1). */
  function IndexOf(s: string, d: string): (r: Option<nat>)
    ensures r.Some? ==> OccursAt(s, d, r.value) && forall i :: 0 <= i < r.value ==> !OccursAt(s, d, i)
    ensures r.None? ==> forall i :: !OccursAt(s, d, i)
  {
    IndexFrom(s, d, 0)
  }

  function LastIndexFrom(s: string, d: string, k: int): (r: Option<nat>)
    ensures r.Some? ==> r.value <= k && OccursAt(s, d, r.value)
    ensures r.Some? ==> forall i :: r.value < i <= k ==> !OccursAt(s, d, i)
    ensures r.None? ==> forall i :: i <= k ==> !OccursAt(s, d, i)
    decreases k + 1
  {
    if k < 0 then None
    else if OccursAt(s, d, k) then Some(k)
    else LastIndexFrom(s, d, k - 1)
  }

  /** `s.lastIndexOf(d)`: where the last occurrence of `d` starts (None stands for -1). */
  function LastIndexOf(s: string, d: string): (r: Option<nat>)
    ensures r.Some? ==> OccursAt(s, d, r.value) && forall i :: r.value < i ==> !OccursAt(s, d, i)
    ensures r.None? ==> forall i :: !OccursAt(s, d, i)
  {
    LastIndexFrom(s, d, |s| - |d|)
  }

  /** `s.split(d)` for a non-empty delimiter: every piece, empty ones included. */
  function Split(s: string, d: string): (parts: seq<string>)
    requires |d| > 0
    ensures |parts| >= 1
    decreases |s|
  {
    match IndexOf(s, d)
    case None => [s]
    case Some(i) => [s[..i]] + Split(s[i + |d|..], d)
  }

  /** The inverse of `Split`: the pieces glued back together with the delimiter between them. */
  function JoinWith(parts: seq<string>, d: string): string
    requires |parts| >= 1
  {
    if |parts| == 1 then parts[0] else parts[0] + d + JoinWith(parts[1..], d)
  }

  /** Splitting loses nothing: joining the pieces with the delimiter gives the string back. */
  lemma {:induction false} SplitJoin(s: string, d: string)
    requires |d| > 0
    ensures JoinWith(Split(s, d), d) == s
    decreases |s|
  {
    match IndexOf(s, d)
    case None =>
    case Some(i) =>
      var rest := s[i + |d|..];
      var parts := Split(s, d);
      assert parts == [s[..i]] + Split(rest, d);
      assert parts[0] == s[..i] && parts[1..] == Split(rest, d);
      SplitJoin(rest, d);
      Rejoin(s, d, i);
  }

  lemma Rejoin(s: string, d: string, i: nat)
    requires OccursAt(s, d, i)
    ensures s[..i] + d + s[i + |d|..] == s
  {
    assert s == s[..i] + s[i..i + |d|] + s[i + |d|..];
  }

  /** No piece of a split contains the delimiter. */
  lemma {:induction false} SplitPiecesFree(s: string, d: string)
    requires |d| > 0
    ensures forall k :: 0 <= k < |Split(s, d)| ==> IndexOf(Split(s, d)[k], d).None?
    decreases |s|
  {
    match IndexOf(s, d)
    case None =>
    case Some(i) =>
      SplitPiecesFree(s[i + |d|..], d);
      forall j ensures !OccursAt(s[..i], d, j) {
        if 0 <= j && j + |d| <= i {
          assert s[..i][j..j + |d|] == s[j..j + |d|];
          assert !OccursAt(s, d, j);
        }
      }
  }

  /** A string without the delimiter is its own single piece. */
  lemma SplitWithoutDelimiter(s: string, c: char)
    requires c !in s
    ensures Split(s, [c]) == [s]
  {
    forall i ensures !OccursAt(s, [c], i) {
      if 0 <= i < |s| {
        assert s[i] in s;
        assert s[i..i + 1] == [s[i]];
      }
    }
  }

  /** Two delimiter-free strings joined by the delimiter split back into the two. */
  lemma SplitAtDelimiter(a: string, b: string, c: char)
    requires c !in a && c !in b
    ensures Split(a + [c] + b, [c]) == [a, b]
  {
    var s := a + [c] + b;
    assert OccursAt(s, [c], |a|);
    forall i | 0 <= i < |a| ensures !OccursAt(s, [c], i) {
      assert s[i] == a[i];
    }
    assert IndexOf(s, [c]) == Some(|a|);
    assert s[..|a|] == a && s[|a| + 1..] == b;
    SplitWithoutDelimiter(b, c);
  }

  /** When the first delimiter follows `a`, the first piece is `a` and there is at least one more. */
  lemma SplitFirstPiece(a: string, b: string, c: char)
    requires c !in a
    ensures |Split(a + [c] + b, [c])| >= 2 && Split(a + [c] + b, [c])[0] == a
  {
    var s := a + [c] + b;
    assert OccursAt(s, [c], |a|);
    forall i | 0 <= i < |a| ensures !OccursAt(s, [c], i) {
      assert s[i] == a[i];
    }
    assert IndexOf(s, [c]) == Some(|a|);
    assert s[..|a|] == a;
  }

  function RegexSpaceRunEnd(s: string, j: nat): (e: nat)
    requires j <= |s|
    ensures j <= e <= |s|
    ensures forall k :: j <= k < e ==> IsRegexSpace(s[k])
    ensures e == |s| || !IsRegexSpace(s[e])
    decreases |s| - j
  {
    if j < |s| && IsRegexSpace(s[j]) then RegexSpaceRunEnd(s, j + 1) else j
  }

  function FirstRegexSpace(s: string, j: nat): (r: Option<nat>)
    requires j <= |s|
    ensures r.Some? ==> j <= r.value < |s| && IsRegexSpace(s[r.value])
    ensures r.Some? ==> forall k :: j <= k < r.value ==> !IsRegexSpace(s[k])
    ensures r.None? ==> forall k :: j <= k < |s| ==> !IsRegexSpace(s[k])
    decreases |s| - j
  {
    if j == |s| then None
    else if IsRegexSpace(s[j]) then Some(j)
    else FirstRegexSpace(s, j + 1)
  }

  /** A non-empty run of regular-expression whitespace. */
  predicate IsSpaceRun(w: string) {
    |w| > 0 && forall i :: 0 <= i < |w| ==> IsRegexSpace(w[i])
  }

  /** No regular-expression whitespace in `x`. */
  predicate SpaceFree(x: string) {
    forall i :: 0 <= i < |x| ==> !IsRegexSpace(x[i])
  }

  /**
   * `s.split(Regex("\\s+"))`: pieces between maximal runs of whitespace, empty ones included.
   * The first piece is the text before the first whitespace, and there is one piece only when
   * there is no whitespace at all.
   */
  function SplitOnSpaceRuns(s: string): (parts: seq<string>)
    ensures |parts| >= 1
    ensures forall k, i :: 0 <= k < |parts| && 0 <= i < |parts[k]| ==> !IsRegexSpace(parts[k][i])
    ensures |parts[0]| <= |s| && parts[0] == s[..|parts[0]|]
    ensures |parts[0]| == |s| || IsRegexSpace(s[|parts[0]|])
    ensures |parts| == 1 <==> SpaceFree(s)
    decreases |s|
  {
    match FirstRegexSpace(s, 0)
    case None => [s]
    case Some(i) => [s[..i]] + SplitOnSpaceRuns(s[RegexSpaceRunEnd(s, i)..])
  }

  function TrimStart(s: string): string
  {
    if |s| > 0 && IsWhitespace(s[0]) then TrimStart(s[1..]) else s
  }

  function TrimEnd(s: string): string
  {
    if |s| > 0 && IsWhitespace(s[|s| - 1]) then TrimEnd(s[..|s| - 1]) else s
  }

  /** `String.trim()`: the string without its leading and trailing whitespace. */
  function Trim(s: string): string
  {
    TrimEnd(TrimStart(s))
  }

  /** TrimStart drops exactly the leading whitespace: the rest is a suffix that does not start with any. */
  lemma {:induction false} TrimStartFacts(s: string)
    ensures |TrimStart(s)| <= |s| && TrimStart(s) == s[|s| - |TrimStart(s)|..]
    ensures TrimStart(s) == [] || !IsWhitespace(TrimStart(s)[0])
    ensures forall i :: 0 <= i < |s| - |TrimStart(s)| ==> IsWhitespace(s[i])
  {
    if |s| > 0 && IsWhitespace(s[0]) {
      TrimStartFacts(s[1..]);
    }
  }

  /** TrimEnd drops exactly the trailing whitespace: the rest is a prefix that does not end with any. */
  lemma {:induction false} TrimEndFacts(s: string)
    ensures |TrimEnd(s)| <= |s| && TrimEnd(s) == s[..|TrimEnd(s)|]
    ensures TrimEnd(s) == [] || !IsWhitespace(TrimEnd(s)[|TrimEnd(s)| - 1])
    ensures forall i :: |TrimEnd(s)| <= i < |s| ==> IsWhitespace(s[i])
  {
    if |s| > 0 && IsWhitespace(s[|s| - 1]) {
      TrimEndFacts(s[..|s| - 1]);
    }
  }

  /** Trim keeps the middle slice of `s` that starts and ends with non-whitespace, and drops only whitespace. */
  lemma TrimFacts(s: string)
    ensures |TrimStart(s)| <= |s| && var a := |s| - |TrimStart(s)|;
      a + |Trim(s)| <= |s| && Trim(s) == s[a..a + |Trim(s)|] &&
      (forall i :: 0 <= i < a ==> IsWhitespace(s[i])) &&
      (forall i :: a + |Trim(s)| <= i < |s| ==> IsWhitespace(s[i]))
    ensures Trim(s) == [] || (!IsWhitespace(Trim(s)[0]) && !IsWhitespace(Trim(s)[|Trim(s)| - 1]))
  {
    var t := TrimStart(s);
    TrimStartFacts(s);
    TrimEndFacts(t);
    var r := TrimEnd(t);
    MiddleSlice(s, t, r);
    if r != [] {
      assert r[0] == t[0];
    }
  }

  /** A prefix `r` of a suffix `t` of `s` is the slice between them; the cut-off ends stay whitespace. */
  lemma MiddleSlice(s: string, t: string, r: string)
    requires |t| <= |s| && t == s[|s| - |t|..] && |r| <= |t| && r == t[..|r|]
    requires forall i :: 0 <= i < |s| - |t| ==> IsWhitespace(s[i])
    requires forall i :: |r| <= i < |t| ==> IsWhitespace(t[i])
    ensures var a := |s| - |t|;
      a + |r| <= |s| && r == s[a..a + |r|] &&
      (forall i :: 0 <= i < a ==> IsWhitespace(s[i])) &&
      (forall i :: a + |r| <= i < |s| ==> IsWhitespace(s[i]))
  {
    var a := |s| - |t|;
    forall i | a + |r| <= i < |s|
      ensures IsWhitespace(s[i])
    {
      assert s[i] == t[i - a];
    }
  }

  /** `s.replace(from, to)` for single characters. */
  function ReplaceChar(s: string, from: char, to: char): (r: string)
    ensures |r| == |s|
    ensures forall i :: 0 <= i < |s| ==> r[i] == if s[i] == from then to else s[i]
  {
    if s == [] then [] else [if s[0] == from then to else s[0]] + ReplaceChar(s[1..], from, to)
  }

  /** Replacing a character by itself, or one that does not occur, changes nothing. */
  lemma ReplaceCharIdentity(s: string, from: char, to: char)
    requires from == to || from !in s
    ensures ReplaceChar(s, from, to) == s
  {
    var r := ReplaceChar(s, from, to);
    forall i | 0 <= i < |s| ensures r[i] == s[i] {
      assert s[i] in s;
    }
  }

  /**
   * `s.replace(" ", "")`: the string with every occurrence of `c` deleted. Every other character
   * keeps its number of occurrences (and their order, by `RemoveCharAppend` and `RemoveCharAbsent`).
   */
  function RemoveChar(s: string, c: char): (r: string)
    ensures c !in r
    ensures |r| <= |s|
    ensures forall x :: x != c ==> multiset(r)[x] == multiset(s)[x]
  {
    if s == [] then []
    else
      assert s == [s[0]] + s[1..];
      (if s[0] == c then [] else [s[0]]) + RemoveChar(s[1..], c)
  }

  /** Deleting a character from two strings one after the other is deleting it from each. */
  lemma {:induction false} RemoveCharAppend(a: string, b: string, c: char)
    ensures RemoveChar(a + b, c) == RemoveChar(a, c) + RemoveChar(b, c)
    decreases |a|
  {
    if a != [] {
      assert (a + b)[1..] == a[1..] + b;
      RemoveCharAppend(a[1..], b, c);
    } else {
      assert a + b == b;
    }
  }

  /** Deleting a character that does not occur changes nothing. */
  lemma {:induction false} RemoveCharAbsent(a: string, c: char)
    requires c !in a
    ensures RemoveChar(a, c) == a
    decreases |a|
  {
    if a != [] {
      assert c !in a[1..];
      RemoveCharAbsent(a[1..], c);
    }
  }

  /** Deleting `c` from a string of `c`s leaves nothing. */
  lemma {:induction false} RemoveCharOnly(a: string, c: char)
    requires forall i :: 0 <= i < |a| ==> a[i] == c
    ensures RemoveChar(a, c) == ""
    decreases |a|
  {
    if a != [] {
      RemoveCharOnly(a[1..], c);
    }
  }

  // ---------------------------------------------------------------- writing numbers back

  /** The decimal digits of `n`, without leading zeros (what `n.toString()` prints). */
  function NatToString(n: nat): (s: string)
    ensures |s| > 0 && AllDigits(s)
    decreases n
  {
    if n < 10 then [('0' as int + n) as char] else NatToString(n / 10) + [('0' as int + n % 10) as char]
  }

  /** Reading the printed digits gives the number back. */
  lemma {:induction false} NatToStringValue(n: nat)
    ensures DecimalValue(NatToString(n)) == n
    decreases n
  {
    var s := NatToString(n);
    if n < 10 {
      assert s[..0] == [];
    } else {
      NatToStringValue(n / 10);
      assert s[..|s| - 1] == NatToString(n / 10);
    }
  }

  /** `n.toString().toInt()` is `n` for every non-negative 32-bit `n`. */
  lemma NatToStringToInt(n: nat)
    requires n <= IntMax
    ensures ToInt(NatToString(n)) == Some(n)
  {
    NatToStringValue(n);
  }

  /** Printed digits contain no whitespace and no `c` that is not a digit. */
  lemma NatToStringChars(n: nat, c: char)
    requires !IsDigit(c)
    ensures c !in NatToString(n)
    ensures forall i :: 0 <= i < |NatToString(n)| ==> !IsRegexSpace(NatToString(n)[i])
  {
    var s := NatToString(n);
    assert AllDigits(s);
  }

  /**
   * A whitespace-free piece, a run of whitespace and a rest that does not start with whitespace:
   * the piece comes first, then the pieces of the rest. With `x == ""` this is the empty first piece
   * of a string that starts with whitespace, and with `y == ""` the empty last piece of one that ends so.
   */
  lemma SplitOnSpaceRunsCons(x: string, w: string, y: string)
    requires SpaceFree(x) && IsSpaceRun(w)
    requires y == [] || !IsRegexSpace(y[0])
    ensures SplitOnSpaceRuns(x + w + y) == [x] + SplitOnSpaceRuns(y)
  {
    var s := x + w + y;
    assert FirstRegexSpace(s, 0) == Some(|x|) by {
      assert s[|x|] == w[0];
      forall i | 0 <= i < |x| ensures !IsRegexSpace(s[i]) {
        assert s[i] == x[i];
      }
      FirstSpaceAt(s, |x|);
    }
    assert s[..|x|] == x && s[|x| + |w|..] == y;
    assert RegexSpaceRunEnd(s, |x|) == |x| + |w| by {
      assert |x| + |w| == |s| || s[|x| + |w|] == y[0];
      forall k | |x| <= k < |x| + |w| ensures IsRegexSpace(s[k]) {
        assert s[k] == w[k - |x|];
      }
      RunEndAt(s, |x|, |x| + |w|);
    }
    SplitOnSpaceRunsAt(s, |x|);
  }

  /** Splitting at the first whitespace run takes the text before it and splits the rest. */
  lemma SplitOnSpaceRunsAt(s: string, i: nat)
    requires FirstRegexSpace(s, 0) == Some(i)
    ensures i < |s| && SplitOnSpaceRuns(s) == [s[..i]] + SplitOnSpaceRuns(s[RegexSpaceRunEnd(s, i)..])
  {
  }

  lemma {:induction false} RunEndAt(s: string, j: nat, e: nat)
    requires j <= e <= |s|
    requires forall k :: j <= k < e ==> IsRegexSpace(s[k])
    requires e == |s| || !IsRegexSpace(s[e])
    ensures RegexSpaceRunEnd(s, j) == e
    decreases e - j
  {
    if j < e {
      RunEndAt(s, j + 1, e);
    }
  }

  lemma {:induction false} FirstSpaceAt(s: string, p: nat)
    requires p < |s| && IsRegexSpace(s[p])
    requires forall i :: 0 <= i < p ==> !IsRegexSpace(s[i])
    ensures FirstRegexSpace(s, 0) == Some(p)
  {
    FirstSpaceFrom(s, p, 0);
  }

  lemma {:induction false} FirstSpaceFrom(s: string, p: nat, j: nat)
    requires j <= p < |s| && IsRegexSpace(s[p])
    requires forall i :: j <= i < p ==> !IsRegexSpace(s[i])
    ensures FirstRegexSpace(s, j) == Some(p)
    decreases p - j
  {
    if j < p {
      FirstSpaceFrom(s, p, j + 1);
    }
  }

  /** A string with no whitespace is its own single piece. */
  lemma SplitOnSpaceRunsNone(x: string)
    requires SpaceFree(x)
    ensures SplitOnSpaceRuns(x) == [x]
  {
  }

  /** `n.toString().toLong()` is `n` for every non-negative 64-bit `n`. */
  lemma NatToStringToLong(n: nat)
    requires n <= LongMax
    ensures ToLong(NatToString(n)) == Some(n)
  {
    NatToStringValue(n);
  }

  /** The digits of each number, in order. */
  function Numerals(nums: seq<nat>): (r: seq<string>)
    ensures |r| == |nums|
    ensures forall i :: 0 <= i < |nums| ==> r[i] == NatToString(nums[i])
  {
    if nums == [] then [] else [NatToString(nums[0])] + Numerals(nums[1..])
  }

  /**
   * Splitting at a delimiter whose first character occurs in neither side gives the two sides:
   * `(a + d + b).split(d) == [a, b]`.
   */
  lemma SplitAtFirst(a: string, d: string, b: string)
    requires |d| > 0 && d[0] !in a && d[0] !in b
    ensures Split(a + d + b, d) == [a, b]
  {
    var s := a + d + b;
    assert s[|a|..|a| + |d|] == d;
    assert OccursAt(s, d, |a|);
    forall i | 0 <= i < |a|
      ensures !OccursAt(s, d, i)
    {
      if i + |d| <= |s| {
        assert s[i..i + |d|][0] == s[i] == a[i];
        assert a[i] in a;
      }
    }
    assert IndexOf(s, d) == Some(|a|);
    assert s[..|a|] == a && s[|a| + |d|..] == b;
    forall i
      ensures !OccursAt(b, d, i)
    {
      if 0 <= i && i + |d| <= |b| {
        assert b[i..i + |d|][0] == b[i];
        assert b[i] in b;
      }
    }
  }

  /** Joining pieces free of a one-character delimiter and splitting again gives the pieces back. */
  lemma {:induction false} SplitJoinInverse(parts: seq<string>, c: char)
    requires |parts| >= 1
    requires forall k :: 0 <= k < |parts| ==> c !in parts[k]
    ensures Split(JoinWith(parts, [c]), [c]) == parts
    decreases |parts|
  {
    if |parts| == 1 {
      SplitWithoutDelimiter(parts[0], c);
    } else {
      var p := parts[0];
      var j := JoinWith(parts[1..], [c]);
      var s := p + [c] + j;
      assert JoinWith(parts, [c]) == s;
      assert OccursAt(s, [c], |p|) by {
        assert s[|p|..|p| + 1] == [c];
      }
      forall i | 0 <= i < |p|
        ensures !OccursAt(s, [c], i)
      {
        assert s[i..i + 1][0] == p[i];
        assert p[i] in p;
      }
      assert IndexOf(s, [c]) == Some(|p|);
      assert s[..|p|] == p && s[|p| + 1..] == j;
      SplitJoinInverse(parts[1..], c);
    }
  }
  /** A character that is in no piece and is not the delimiter is not in the joined string. */
  lemma {:induction false} NoCharInJoin(parts: seq<string>, c: char, x: char)
    requires |parts| >= 1 && x != c
    requires forall k :: 0 <= k < |parts| ==> x !in parts[k]
    ensures x !in JoinWith(parts, [c])
    decreases |parts|
  {
    if |parts| > 1 {
      NoCharInJoin(parts[1..], c, x);
    }
  }

  /** The joined string starts with the first piece and ends with the last. */
  lemma {:induction false} JoinWithEnds(parts: seq<string>, d: string)
    requires |parts| >= 1
    ensures |JoinWith(parts, d)| >= |parts[0]| && |JoinWith(parts, d)| >= |parts[|parts| - 1]|
    ensures JoinWith(parts, d)[..|parts[0]|] == parts[0]
    ensures JoinWith(parts, d)[|JoinWith(parts, d)| - |parts[|parts| - 1]|..] == parts[|parts| - 1]
    decreases |parts|
  {
    if |parts| > 1 {
      JoinWithEnds(parts[1..], d);
      var j := JoinWith(parts[1..], d);
      assert JoinWith(parts, d) == parts[0] + d + j;
    }
  }

  /** Trimming a string that begins and ends with a non-whitespace character changes nothing. */
  lemma TrimNoOp(s: string)
    requires s != [] && !IsWhitespace(s[0]) && !IsWhitespace(s[|s| - 1])
    ensures Trim(s) == s
  {
    assert TrimStart(s) == s;
  }

  /** No decimal numeral holds a character that is not a digit. */
  lemma NumeralsAvoid(nums: seq<nat>, c: char)
    requires !IsDigit(c)
    ensures forall k :: 0 <= k < |nums| ==> c !in Numerals(nums)[k]
  {
    forall k | 0 <= k < |nums|
      ensures c !in Numerals(nums)[k]
    {
      NatToStringChars(nums[k], c);
    }
  }

  /** Numerals of Int-sized numbers all read back with `toInt`. */
  lemma NumeralsToInt(nums: seq<nat>)
    requires forall i :: 0 <= i < |nums| ==> nums[i] <= IntMax
    ensures MapAll(Numerals(nums), ToInt) == Some(nums)
  {
    forall i | 0 <= i < |nums|
      ensures ToInt(Numerals(nums)[i]) == Some(nums[i])
    {
      NatToStringToInt(nums[i]);
    }
    MapAllPerElement(Numerals(nums), ToInt);
    assert MapAll(Numerals(nums), ToInt).value == nums;
  }

  /** Numerals of Long-sized numbers all read back with `toLong`. */
  lemma NumeralsToLong(nums: seq<nat>)
    requires forall i :: 0 <= i < |nums| ==> nums[i] <= LongMax
    ensures MapAll(Numerals(nums), ToLong) == Some(nums)
  {
    forall i | 0 <= i < |nums|
      ensures ToLong(Numerals(nums)[i]) == Some(nums[i])
    {
      NatToStringToLong(nums[i]);
    }
    MapAllPerElement(Numerals(nums), ToLong);
    assert MapAll(Numerals(nums), ToLong).value == nums;
  }

  /** Numerals joined by single spaces are their own trim. */
  lemma JoinedNumeralsTrimmed(nums: seq<nat>)
    requires nums != []
    ensures Trim(JoinWith(Numerals(nums), " ")) == JoinWith(Numerals(nums), " ")
  {
    var ns := Numerals(nums);
    var body := JoinWith(ns, " ");
    var last := ns[|ns| - 1];
    NatToStringChars(nums[0], ' ');
    NatToStringChars(nums[|nums| - 1], ' ');
    assert AllDigits(ns[0]) && AllDigits(last);
    JoinWithEnds(ns, " ");
    assert body[0] == ns[0][0];
    assert body[|body| - 1] == last[|last| - 1];
    TrimNoOp(body);
  }
}
