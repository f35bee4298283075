/**
 * Day 3, "Gear Ratios": an engine schematic is a grid of digits, '.' and symbols. Part 1 sums the
 * numbers adjacent (also diagonally) to a symbol; part 2 sums, over the '*' symbols adjacent to exactly
 * two numbers, the product of those two numbers.
 */
module Day3 {
  import opened Wrappers
  import opened Text

  /** `IntRange`: the integers `first..last`, empty when `last < first`. */
  datatype IntRange = IntRange(first: int, last: int)

  /** `Position` and its two subclasses: a number with its columns, a symbol with the columns around it. */
  datatype Position =
    | Number(value: int, row: int, range: IntRange)
    | Character(symbol: string, row: int, range: IntRange)

  // ---------------------------------------------------------------- scanning one row

  /** The first column of the digit run that holds column `j`. */
  function RunStart(line: string, j: nat): (s: nat)
    requires j < |line| && IsDigit(line[j])
    ensures s <= j && (s == 0 || !IsDigit(line[s - 1]))
    ensures forall k :: s <= k <= j ==> IsDigit(line[k])
  {
    if j > 0 && IsDigit(line[j - 1]) then RunStart(line, j - 1) else j
  }

  /** A symbol: neither '.' nor a digit. */
  predicate IsSymbol(c: char) {
    c != '.' && !IsDigit(c)
  }

  /**
   * What the scanner emits on reaching column `j` (or the end of the line when `j == |line|`): the
   * number whose digit run ends just before `j`, then the symbol at `j`. None when the run's digits do
   * not fit an Int.
   */
  function Emission(line: string, row: int, j: nat): Option<seq<Position>>
    requires j <= |line|
  {
    var number :=
      if j > 0 && IsDigit(line[j - 1]) && (j == |line| || !IsDigit(line[j])) then
        var s := RunStart(line, j - 1);
        match ToInt(line[s..j])
        case None => None
        case Some(v) => Some([Number(v, row, IntRange(s, j - 1))])
      else Some([]);
    match number
    case None => None
    case Some(ns) => Some(ns + SymbolAt(line, row, j))
  }

  /** The symbol at column `j` with the columns around it, if there is one. */
  function SymbolAt(line: string, row: int, j: nat): seq<Position>
  {
    if j < |line| && IsSymbol(line[j]) then [Character([line[j]], row, IntRange(j - 1, j + 1))] else []
  }

  /** The emissions of columns `0 .. n - 1`, in that order. */
  function Emissions(line: string, row: int, n: nat): Option<seq<Position>>
    requires n <= |line| + 1
  {
    if n == 0 then Some([])
    else
      match Emissions(line, row, n - 1)
      case None => None
      case Some(xs) =>
        match Emission(line, row, n - 1)
        case None => None
        case Some(e) => Some(xs + e)
  }

  /** The elements of one row: every column and the end of the line. */
  function Elements(line: string, row: int): Option<seq<Position>>
  {
    Emissions(line, row, |line| + 1)
  }

  /** Where the digit run still in the buffer starts, `idx` when the buffer is empty. */
  function Pending(line: string, idx: nat): (p: nat)
    requires idx <= |line|
    ensures p <= idx
  {
    if idx > 0 && IsDigit(line[idx - 1]) then RunStart(line, idx - 1) else idx
  }

  /** `emitNumber(idx)`: the buffered digits as a number ending at `idx`, nothing when the buffer is empty. */
  function EmitNumber(buffer: string, rowId: int, idx: int): Option<seq<Position>>
  {
    if buffer == [] then Some([])
    else
      match ToInt(buffer)
      case None => None
      case Some(v) => Some([Number(v, rowId, IntRange(idx - |buffer| + 1, idx))])
  }

  /** `parse(line, rowId)`: one pass over the columns with a digit buffer. None where `toInt` throws. */
  method ParseRow(line: string, rowId: int) returns (result: Option<seq<Position>>)
    ensures result == Elements(line, rowId)
  {
    var buffer := "";
    var out: seq<Position> := [];
    for idx := 0 to |line|
      invariant Emissions(line, rowId, idx) == Some(out)
      invariant buffer == line[Pending(line, idx)..idx]
    {
      var c := line[idx];
      if c == '.' || !IsDigit(c) {
        var emitted := EmitNumber(buffer, rowId, idx - 1);
        ColumnStep(line, rowId, idx, buffer, out);
        if emitted.None? {
          return None;
        }
        out := out + emitted.value;
        buffer := "";
        if c != '.' {
          out := out + [Character([c], rowId, IntRange(idx - 1, idx + 1))];
        }
      } else {
        EmitAtDigit(line, rowId, idx, buffer);
        EmissionsStep(line, rowId, idx, out, []);
        assert out + [] == out;
        buffer := buffer + [c];
      }
    }
    var emitted := EmitNumber(buffer, rowId, |line| - 1);
    EmitAtEnd(line, rowId, buffer);
    if emitted.None? {
      EmissionsStepFails(line, rowId, |line|);
      return None;
    }
    EmissionsStep(line, rowId, |line|, out, emitted.value);
    out := out + emitted.value;
    result := Some(out);
  }

  /** At a '.' or a symbol, the buffer holds exactly the run that ends there. */
  lemma EmitAtColumn(line: string, rowId: int, idx: nat, buffer: string)
    requires idx < |line| && !IsDigit(line[idx])
    requires buffer == line[Pending(line, idx)..idx]
    ensures Emission(line, rowId, idx).None? <==> EmitNumber(buffer, rowId, idx - 1).None?
    ensures EmitNumber(buffer, rowId, idx - 1).Some? ==>
      Emission(line, rowId, idx).value == EmitNumber(buffer, rowId, idx - 1).value + SymbolAt(line, rowId, idx)
  {
  }

  /** At a digit nothing is emitted and the digit joins the buffer. */
  lemma EmitAtDigit(line: string, rowId: int, idx: nat, buffer: string)
    requires idx < |line| && IsDigit(line[idx])
    requires buffer == line[Pending(line, idx)..idx]
    ensures Emission(line, rowId, idx) == Some([])
    ensures buffer + [line[idx]] == line[Pending(line, idx + 1)..idx + 1]
  {
    EmissionAtDigit(line, rowId, idx);
    PendingAtDigit(line, idx);
  }

  lemma EmissionAtDigit(line: string, rowId: int, idx: nat)
    requires idx < |line| && IsDigit(line[idx])
    ensures Emission(line, rowId, idx) == Some([])
  {
    assert Emission(line, rowId, idx).value == [];
  }

  lemma PendingAtDigit(line: string, idx: nat)
    requires idx < |line| && IsDigit(line[idx])
    ensures Pending(line, idx + 1) == Pending(line, idx)
  {
  }

  /** At the end of the line, the buffer holds the run that ends the line, if any. */
  lemma EmitAtEnd(line: string, rowId: int, buffer: string)
    requires buffer == line[Pending(line, |line|)..|line|]
    ensures Emission(line, rowId, |line|) == EmitNumber(buffer, rowId, |line| - 1)
  {
    var n := |line|;
    if n > 0 && IsDigit(line[n - 1]) {
      var s := RunStart(line, n - 1);
      assert buffer == line[s..n] && buffer != [];
      match ToInt(buffer) {
        case None =>
        case Some(v) =>
          assert [Number(v, rowId, IntRange(s, n - 1))] + [] == [Number(v, rowId, IntRange(s, n - 1))];
      }
    } else {
      assert buffer == [];
      assert Emission(line, rowId, n).value == [];
    }
  }

  /** One more column appends its emission. */
  lemma EmissionsStep(line: string, row: int, n: nat, xs: seq<Position>, e: seq<Position>)
    requires n <= |line| && Emissions(line, row, n) == Some(xs) && Emission(line, row, n) == Some(e)
    ensures Emissions(line, row, n + 1) == Some(xs + e)
  {
    assert Emissions(line, row, n + 1).value == xs + e;
  }

  /**
   * One non-digit column of `parse`: the buffered number is emitted, then the symbol if the column
   * holds one; a number that does not fit an Int fails the whole row.
   */
  lemma ColumnStep(line: string, rowId: int, idx: nat, buffer: string, out: seq<Position>)
    requires idx < |line| && !IsDigit(line[idx])
    requires Emissions(line, rowId, idx) == Some(out) && buffer == line[Pending(line, idx)..idx]
    ensures EmitNumber(buffer, rowId, idx - 1).None? ==> Elements(line, rowId).None?
    ensures EmitNumber(buffer, rowId, idx - 1).Some? ==> Pending(line, idx + 1) == idx + 1
    ensures EmitNumber(buffer, rowId, idx - 1).Some? && line[idx] != '.' ==>
      Emissions(line, rowId, idx + 1) ==
        Some(out + EmitNumber(buffer, rowId, idx - 1).value + [Character([line[idx]], rowId, IntRange(idx - 1, idx + 1))])
    ensures EmitNumber(buffer, rowId, idx - 1).Some? && line[idx] == '.' ==>
      Emissions(line, rowId, idx + 1) == Some(out + EmitNumber(buffer, rowId, idx - 1).value)
  {
    EmitAtColumn(line, rowId, idx, buffer);
    match EmitNumber(buffer, rowId, idx - 1)
    case None =>
      ColumnFails(line, rowId, idx, out);
    case Some(ns) =>
      ColumnEmits(line, rowId, idx, out, ns);
  }

  lemma ColumnFails(line: string, rowId: int, idx: nat, out: seq<Position>)
    requires idx < |line| && Emissions(line, rowId, idx) == Some(out) && Emission(line, rowId, idx).None?
    ensures Elements(line, rowId).None?
  {
    EmissionsStepFails(line, rowId, idx);
    EmissionsFailureStays(line, rowId, idx + 1, |line| + 1);
  }

  lemma ColumnEmits(line: string, rowId: int, idx: nat, out: seq<Position>, ns: seq<Position>)
    requires idx < |line| && !IsDigit(line[idx]) && Emissions(line, rowId, idx) == Some(out)
    requires Emission(line, rowId, idx) == Some(ns + SymbolAt(line, rowId, idx))
    ensures Pending(line, idx + 1) == idx + 1
    ensures line[idx] != '.' ==>
      Emissions(line, rowId, idx + 1) == Some(out + ns + [Character([line[idx]], rowId, IntRange(idx - 1, idx + 1))])
    ensures line[idx] == '.' ==> Emissions(line, rowId, idx + 1) == Some(out + ns)
  {
    var sym := SymbolAt(line, rowId, idx);
    EmissionsStep(line, rowId, idx, out, ns + sym);
    assert out + (ns + sym) == out + ns + sym;
    if line[idx] == '.' {
      assert sym == [];
      assert out + ns + sym == out + ns;
    }
  }

  /** A column that fails makes the prefix through it fail. */
  lemma EmissionsStepFails(line: string, row: int, n: nat)
    requires n <= |line| && Emissions(line, row, n).Some? && Emission(line, row, n).None?
    ensures Emissions(line, row, n + 1).None?
  {
  }

  /** Once a column fails, every later prefix fails. */
  lemma {:induction false} EmissionsFailureStays(line: string, row: int, n: nat, m: nat)
    requires n <= m <= |line| + 1 && Emissions(line, row, n).None?
    ensures Emissions(line, row, m).None?
    decreases m - n
  {
    if n < m {
      EmissionsFailureStays(line, row, n + 1, m);
    }
  }

  // ---------------------------------------------------------------- what a row holds

  /** `line[s..j]` is a maximal run of digits. */
  predicate Run(line: string, s: int, j: int) {
    0 <= s < j <= |line| && (forall k :: s <= k < j ==> IsDigit(line[k]))
    && (s == 0 || !IsDigit(line[s - 1])) && (j == |line| || !IsDigit(line[j]))
  }

  /** The column an element stands for: a number's last digit, a symbol's own column. */
  function Column(e: Position): int {
    if e.Number? then e.range.last else e.range.first + 1
  }

  /**
   * `e` is an element the scanner may emit for `line` in row `row`: a number over a maximal digit run,
   * with the run's decimal value, or a symbol with the columns on either side of it.
   */
  predicate Placed(line: string, row: int, e: Position) {
    e.row == row &&
    match e
    case Number(v, _, r) =>
      Run(line, r.first, r.last + 1) && v == DecimalValue(line[r.first..r.last + 1]) && v <= IntMax
    case Character(sym, _, r) =>
      0 <= r.first + 1 < |line| && r.last == r.first + 2 && IsSymbol(line[r.first + 1]) && sym == [line[r.first + 1]]
  }

  /** A run's value fits an Int exactly when `toInt` accepts it. */
  lemma RunToInt(line: string, s: int, j: int)
    requires Run(line, s, j)
    ensures ToInt(line[s..j]).Some? <==> DecimalValue(line[s..j]) <= IntMax
    ensures ToInt(line[s..j]).Some? ==> ToInt(line[s..j]).value == DecimalValue(line[s..j])
  {
    assert AllDigits(line[s..j]);
  }

  /**
   * The elements `e` of column `j`: placed, a number ending in the column before `j`, then the symbol
   * at `j`.
   */
  predicate ColumnShape(line: string, row: int, j: int, e: seq<Position>) {
    forall i :: 0 <= i < |e| ==>
      (Placed(line, row, e[i]) && (e[i].Number? ==> Column(e[i]) == j - 1 && i == 0)
       && (e[i].Character? ==> Column(e[i]) == j && i == |e| - 1))
  }

  /** Placed elements all left of column `n`, numbers left of `n - 1`. */
  predicate LeftOf(line: string, row: int, n: int, xs: seq<Position>) {
    forall i :: 0 <= i < |xs| ==>
      (Placed(line, row, xs[i]) && Column(xs[i]) < n && (xs[i].Number? ==> Column(xs[i]) < n - 1))
  }

  /** One column emits its number (ending in the column before) and then its symbol. */
  lemma EmissionShape(line: string, row: int, j: nat)
    requires j <= |line| && Emission(line, row, j).Some?
    ensures ColumnShape(line, row, j, Emission(line, row, j).value)
  {
    if j > 0 && IsDigit(line[j - 1]) && (j == |line| || !IsDigit(line[j])) {
      var s := RunStart(line, j - 1);
      assert Run(line, s, j);
      RunToInt(line, s, j);
    }
  }

  /** Every element stands strictly right of the one before it. */
  predicate Ascending(es: seq<Position>) {
    forall i, k :: 0 <= i < k < |es| ==> Column(es[i]) < Column(es[k])
  }

  /** The emissions of the first `n` columns are placed, ascending, and left of column `n`. */
  lemma {:induction false} EmissionsShape(line: string, row: int, n: nat)
    requires n <= |line| + 1 && Emissions(line, row, n).Some?
    ensures Ascending(Emissions(line, row, n).value) && LeftOf(line, row, n, Emissions(line, row, n).value)
    decreases n
  {
    if n > 0 {
      EmissionsUnstep(line, row, n - 1);
      EmissionsShape(line, row, n - 1);
      EmissionsShapeStep(line, row, n - 1, Emissions(line, row, n - 1).value, Emission(line, row, n - 1).value);
    }
  }

  lemma EmissionsShapeStep(line: string, row: int, j: nat, xs: seq<Position>, e: seq<Position>)
    requires j <= |line| && Emission(line, row, j) == Some(e)
    requires Ascending(xs) && LeftOf(line, row, j, xs)
    ensures Ascending(xs + e) && LeftOf(line, row, j + 1, xs + e)
  {
    EmissionShape(line, row, j);
    ShapeStep(line, row, j, xs, e);
  }

  /** The elements of column `j` follow those of the columns before it. */
  lemma ShapeStep(line: string, row: int, j: int, xs: seq<Position>, e: seq<Position>)
    requires Ascending(xs) && LeftOf(line, row, j, xs) && ColumnShape(line, row, j, e)
    ensures Ascending(xs + e) && LeftOf(line, row, j + 1, xs + e)
  {
    forall i, k | 0 <= i < |xs| && 0 <= k < |e|
      ensures Column(xs[i]) < Column(e[k])
    {
      if e[k].Number? && xs[i].Character? {
        assert IsSymbol(line[Column(xs[i])]);
        assert IsDigit(line[Column(e[k])]);
      }
    }
    AscendingAppend(xs, e);
    var ys := xs + e;
    forall i | 0 <= i < |ys|
      ensures Placed(line, row, ys[i]) && Column(ys[i]) < j + 1 && (ys[i].Number? ==> Column(ys[i]) < j)
    {
      if i >= |xs| {
        assert ys[i] == e[i - |xs|];
      } else {
        assert ys[i] == xs[i];
      }
    }
  }

  lemma AscendingAppend(xs: seq<Position>, e: seq<Position>)
    requires Ascending(xs) && Ascending(e)
    requires forall i, k :: 0 <= i < |xs| && 0 <= k < |e| ==> Column(xs[i]) < Column(e[k])
    ensures Ascending(xs + e)
  {
    var ys := xs + e;
    forall i, k | 0 <= i < k < |ys|
      ensures Column(ys[i]) < Column(ys[k])
    {
      if k < |xs| {
        assert ys[i] == xs[i] && ys[k] == xs[k];
      } else if i >= |xs| {
        assert ys[i] == e[i - |xs|] && ys[k] == e[k - |xs|];
      } else {
        assert ys[i] == xs[i] && ys[k] == e[k - |xs|];
      }
    }
  }

  /** The emissions of a shorter prefix of columns begin the emissions of a longer one. */
  lemma {:induction false} EmissionsPrefix(line: string, row: int, n: nat, m: nat)
    requires n <= m <= |line| + 1 && Emissions(line, row, m).Some?
    ensures Emissions(line, row, n).Some? && Emissions(line, row, n).value <= Emissions(line, row, m).value
    decreases m - n
  {
    if n < m {
      EmissionsPrefix(line, row, n + 1, m);
      EmissionsGrow(line, row, n);
      PrefixTrans(Emissions(line, row, n).value, Emissions(line, row, n + 1).value, Emissions(line, row, m).value);
    }
  }

  /** A prefix of columns that succeeds is the shorter prefix followed by its last column. */
  lemma EmissionsUnstep(line: string, row: int, n: nat)
    requires n <= |line| && Emissions(line, row, n + 1).Some?
    ensures Emissions(line, row, n).Some? && Emission(line, row, n).Some?
    ensures Emissions(line, row, n + 1).value == Emissions(line, row, n).value + Emission(line, row, n).value
  {
  }

  /** One more column only extends the emissions. */
  lemma EmissionsGrow(line: string, row: int, n: nat)
    requires n <= |line| && Emissions(line, row, n + 1).Some?
    ensures Emissions(line, row, n).Some? && Emissions(line, row, n).value <= Emissions(line, row, n + 1).value
  {
    EmissionsUnstep(line, row, n);
    PrefixAppend(Emissions(line, row, n).value, Emission(line, row, n).value);
  }

  lemma PrefixAppend(a: seq<Position>, e: seq<Position>)
    ensures a <= a + e
  {
  }

  lemma PrefixTrans(a: seq<Position>, b: seq<Position>, c: seq<Position>)
    requires a <= b && b <= c
    ensures a <= c
  {
  }

  /** Whatever column `j` emits ends up among the row's elements. */
  lemma EmissionInElements(line: string, row: int, j: nat)
    requires j <= |line| && Elements(line, row).Some?
    ensures Emission(line, row, j).Some?
    ensures forall x :: x in Emission(line, row, j).value ==> x in Elements(line, row).value
  {
    EmissionsPrefix(line, row, j + 1, |line| + 1);
    var before := Emissions(line, row, j).value;
    var e := Emission(line, row, j).value;
    var all := Elements(line, row).value;
    assert Emissions(line, row, j + 1).value == before + e;
    forall x | x in e
      ensures x in all
    {
      var i :| 0 <= i < |e| && e[i] == x;
      assert all[|before| + i] == x;
    }
  }

  /** At the end of a maximal run the run's number is emitted, unless its value overflows an Int. */
  lemma EmissionAtRunEnd(line: string, row: int, s: int, j: int)
    requires Run(line, s, j)
    ensures Emission(line, row, j).Some? <==> DecimalValue(line[s..j]) <= IntMax
    ensures Emission(line, row, j).Some? ==>
      |Emission(line, row, j).value| > 0 && Emission(line, row, j).value[0] == Number(DecimalValue(line[s..j]), row, IntRange(s, j - 1))
  {
    RunToInt(line, s, j);
  }

  /** Away from the end of a run nothing can fail. */
  lemma EmissionOffRunEnd(line: string, row: int, j: nat)
    requires j <= |line| && !(j > 0 && IsDigit(line[j - 1]) && (j == |line| || !IsDigit(line[j])))
    ensures Emission(line, row, j).Some?
  {
  }

  /** Every symbol of the row is among its elements, with the columns on either side of it. */
  lemma SymbolsFound(line: string, row: int, c: nat)
    requires Elements(line, row).Some? && c < |line| && IsSymbol(line[c])
    ensures Character([line[c]], row, IntRange(c - 1, c + 1)) in Elements(line, row).value
  {
    EmissionInElements(line, row, c);
    var e := Emission(line, row, c).value;
    assert e[|e| - 1] == Character([line[c]], row, IntRange(c - 1, c + 1));
  }

  /** Every maximal digit run of the row is among its elements, as the number it spells over its columns. */
  lemma RunsFound(line: string, row: int, s: int, j: int)
    requires Elements(line, row).Some? && Run(line, s, j)
    ensures Number(DecimalValue(line[s..j]), row, IntRange(s, j - 1)) in Elements(line, row).value
  {
    EmissionInElements(line, row, j);
    EmissionAtRunEnd(line, row, s, j);
    assert Emission(line, row, j).value[0] in Emission(line, row, j).value;
  }

  /** A row scans without error exactly when each of its digit runs fits an Int. */
  lemma ElementsSome(line: string, row: int)
    ensures Elements(line, row).Some? <==> forall s, j :: Run(line, s, j) ==> DecimalValue(line[s..j]) <= IntMax
  {
    if Elements(line, row).Some? {
      forall s, j | Run(line, s, j)
        ensures DecimalValue(line[s..j]) <= IntMax
      {
        EmissionInElements(line, row, j);
        EmissionAtRunEnd(line, row, s, j);
      }
    } else if forall s, j :: Run(line, s, j) ==> DecimalValue(line[s..j]) <= IntMax {
      EmissionsAllSome(line, row, |line| + 1);
      assert false;
    }
  }

  /** When every run fits, every prefix of columns scans. */
  lemma {:induction false} EmissionsAllSome(line: string, row: int, n: nat)
    requires n <= |line| + 1
    requires forall s, j :: Run(line, s, j) ==> DecimalValue(line[s..j]) <= IntMax
    ensures Emissions(line, row, n).Some?
  {
    if n > 0 {
      EmissionsAllSome(line, row, n - 1);
      var j := n - 1;
      if j > 0 && IsDigit(line[j - 1]) && (j == |line| || !IsDigit(line[j])) {
        var s := RunStart(line, j - 1);
        assert Run(line, s, j);
        EmissionAtRunEnd(line, row, s, j);
      } else {
        EmissionOffRunEnd(line, row, j);
      }
    }
  }

  /** The row's elements: exactly placed elements, in ascending column order. */
  lemma ElementsShape(line: string, row: int)
    requires Elements(line, row).Some?
    ensures Ascending(Elements(line, row).value)
    ensures forall e :: e in Elements(line, row).value ==> Placed(line, row, e)
  {
    EmissionsShape(line, row, |line| + 1);
  }

  // ---------------------------------------------------------------- the whole schematic

  /** `parse(lines)`: the elements of every row, row by row, each row numbered by its index. */
  function AllElements(lines: seq<string>): Option<seq<Position>>
  {
    if lines == [] then Some([])
    else
      match AllElements(lines[..|lines| - 1])
      case None => None
      case Some(xs) =>
        match Elements(lines[|lines| - 1], |lines| - 1)
        case None => None
        case Some(e) => Some(xs + e)
  }

  /** Rows never decrease along the sequence. */
  predicate RowsAscending(es: seq<Position>) {
    forall i, k :: 0 <= i < k < |es| ==> es[i].row <= es[k].row
  }

  /** The schematic scans exactly when every row does. */
  lemma {:induction false} AllElementsSome(lines: seq<string>)
    ensures AllElements(lines).Some? <==> forall r :: 0 <= r < |lines| ==> Elements(lines[r], r).Some?
  {
    if lines != [] {
      var init := lines[..|lines| - 1];
      AllElementsSome(init);
      assert forall r :: 0 <= r < |init| ==> init[r] == lines[r];
    }
  }

  /** Every element is placed in the row it names, and the rows come in order. */
  lemma {:induction false} AllElementsShape(lines: seq<string>)
    requires AllElements(lines).Some?
    ensures RowsAscending(AllElements(lines).value)
    ensures forall e :: e in AllElements(lines).value ==> 0 <= e.row < |lines| && Placed(lines[e.row], e.row, e)
  {
    if lines != [] {
      var init := lines[..|lines| - 1];
      var row := |lines| - 1;
      AllElementsShape(init);
      var xs := AllElements(init).value;
      var e := Elements(lines[row], row).value;
      ElementsShape(lines[row], row);
      assert AllElements(lines).value == xs + e;
      forall x | x in xs
        ensures 0 <= x.row < |lines| && Placed(lines[x.row], x.row, x)
      {
        assert lines[x.row] == init[x.row];
      }
      var ys := xs + e;
      forall i, k | 0 <= i < k < |ys|
        ensures ys[i].row <= ys[k].row
      {
        if k >= |xs| {
          assert ys[k] in e;
          if i < |xs| {
            assert ys[i] in xs;
          } else {
            assert ys[i] in e;
          }
        }
      }
    }
  }

  /** Every element of every row is among the schematic's elements. */
  lemma {:induction false} AllElementsComplete(lines: seq<string>, r: nat, x: Position)
    requires AllElements(lines).Some? && r < |lines|
    ensures Elements(lines[r], r).Some?
    ensures x in Elements(lines[r], r).value ==> x in AllElements(lines).value
  {
    var init := lines[..|lines| - 1];
    assert AllElements(lines).value == AllElements(init).value + Elements(lines[|lines| - 1], |lines| - 1).value;
    if r < |lines| - 1 {
      AllElementsComplete(init, r, x);
      assert init[r] == lines[r];
    }
  }

  // ---------------------------------------------------------------- ranges and adjacency

  /** `IntRange.overlap`: with the ranges ordered by their first element, the later one starts before the earlier one ends. */
  function Overlap(x: IntRange, y: IntRange): bool {
    var (a, b) := if x.first > y.first then (y, x) else (x, y);
    b.first <= a.last
  }

  /** `k` lies in the range. */
  predicate Contains(r: IntRange, k: int) {
    r.first <= k <= r.last
  }

  function Max(a: int, b: int): int {
    if a < b then b else a
  }

  /** For non-empty ranges, overlap is symmetric and means that the ranges share an integer. */
  lemma OverlapShares(x: IntRange, y: IntRange)
    requires x.first <= x.last && y.first <= y.last
    ensures Overlap(x, y) == Overlap(y, x)
    ensures forall k :: Contains(x, k) && Contains(y, k) ==> Overlap(x, y)
    ensures Overlap(x, y) ==> Contains(x, Max(x.first, y.first)) && Contains(y, Max(x.first, y.first))
  {
  }

  /** With an empty range the test is lopsided: it depends on which range comes first. */
  lemma OverlapEmptyLopsided()
    ensures !Overlap(IntRange(0, -1), IntRange(0, 5)) && Overlap(IntRange(0, 5), IntRange(0, -1))
  {
  }

  function Abs(x: int): nat {
    if x < 0 then -x else x
  }

  /** `Number.overlap(char)`: rows at most one apart and overlapping ranges. */
  function NumberOverlap(n: Position, c: Position): bool {
    if Abs(n.row - c.row) <= 1 then Overlap(n.range, c.range) else false
  }

  /** A number touches column `col` of row `r`: that cell is next to one of its digits, diagonals included. */
  ghost predicate Touches(n: Position, r: int, col: int) {
    Abs(n.row - r) <= 1 && exists k :: Contains(n.range, k) && Abs(k - col) <= 1
  }

  /** For a number and a symbol as the scanner places them, overlap is adjacency of the symbol to a digit. */
  lemma NumberOverlapTouches(n: Position, c: Position)
    requires n.range.first <= n.range.last && c.range.last == c.range.first + 2
    ensures NumberOverlap(n, c) <==> Touches(n, c.row, c.range.first + 1)
  {
    var col := c.range.first + 1;
    if NumberOverlap(n, c) {
      var k := if col < n.range.first then n.range.first else if col > n.range.last then n.range.last else col;
      assert Contains(n.range, k) && Abs(k - col) <= 1;
    }
  }

  // ---------------------------------------------------------------- grouping by row

  /** `filterIsInstance<Number>()`. */
  function NumbersOf(es: seq<Position>): (ns: seq<Position>)
    ensures forall x :: x in ns <==> x in es && x.Number?
  {
    if es == [] then []
    else NumbersOf(es[..|es| - 1]) + (if es[|es| - 1].Number? then [es[|es| - 1]] else [])
  }

  /** `filterIsInstance<Character>()`. */
  function CharactersOf(es: seq<Position>): (cs: seq<Position>)
    ensures forall x :: x in cs <==> x in es && x.Character?
  {
    if es == [] then []
    else CharactersOf(es[..|es| - 1]) + (if es[|es| - 1].Character? then [es[|es| - 1]] else [])
  }

  /** The '*' characters. */
  function GearsOf(es: seq<Position>): (gs: seq<Position>)
    ensures forall x :: x in gs <==> x in es && x.Character? && x.symbol == "*"
  {
    if es == [] then []
    else
      var x := es[|es| - 1];
      GearsOf(es[..|es| - 1]) + (if x.Character? && x.symbol == "*" then [x] else [])
  }

  /** The elements of row `r`, in order. */
  function RowFilter(es: seq<Position>, r: int): seq<Position> {
    if es == [] then []
    else RowFilter(es[..|es| - 1], r) + (if es[|es| - 1].row == r then [es[|es| - 1]] else [])
  }

  /** The row's elements are the elements with that row. */
  lemma {:induction false} RowFilterMembers(es: seq<Position>, r: int)
    ensures forall x :: x in RowFilter(es, r) <==> x in es && x.row == r
  {
    if es != [] {
      RowFilterMembers(es[..|es| - 1], r);
      assert es == es[..|es| - 1] + [es[|es| - 1]];
    }
  }

  lemma RowFilterSnoc(es: seq<Position>, x: Position, r: int)
    ensures RowFilter(es + [x], r) == RowFilter(es, r) + (if x.row == r then [x] else [])
  {
    assert (es + [x])[..|es|] == es;
  }

  /** `getOrDefault(r, listOf())`. */
  function Get(m: map<int, seq<Position>>, r: int): seq<Position> {
    if r in m then m[r] else []
  }

  /** `groupBy { it.row }`: each element appended to the list of its row. */
  function GroupByRow(es: seq<Position>): map<int, seq<Position>> {
    if es == [] then map[]
    else
      var m := GroupByRow(es[..|es| - 1]);
      var x := es[|es| - 1];
      m[x.row := Get(m, x.row) + [x]]
  }

  /** Each group holds exactly its row's elements, in order; a row with none has no group. */
  lemma {:induction false} GroupByRowFilters(es: seq<Position>, r: int)
    ensures Get(GroupByRow(es), r) == RowFilter(es, r)
    ensures r in GroupByRow(es) ==> RowFilter(es, r) != []
  {
    if es != [] {
      GroupByRowFilters(es[..|es| - 1], r);
    }
  }

  /** `getContext(r)`: the groups of rows r - 1, r and r + 1, in that order. */
  function Context(m: map<int, seq<Position>>, r: int): seq<Position> {
    Get(m, r - 1) + Get(m, r) + Get(m, r + 1)
  }

  /** The context of a row in the grouping is the elements of the row and of its neighbours, row by row. */
  lemma ContextRows(es: seq<Position>, r: int)
    ensures Context(GroupByRow(es), r) == RowFilter(es, r - 1) + RowFilter(es, r) + RowFilter(es, r + 1)
  {
    GroupByRowFilters(es, r - 1);
    GroupByRowFilters(es, r);
    GroupByRowFilters(es, r + 1);
  }

  /** The context of a row holds exactly the elements of that row and of its two neighbours. */
  lemma ContextMembers(es: seq<Position>, r: int)
    ensures forall x :: x in Context(GroupByRow(es), r) <==> x in es && Abs(x.row - r) <= 1
  {
    ContextRows(es, r);
    RowFilterMembers(es, r - 1);
    RowFilterMembers(es, r);
    RowFilterMembers(es, r + 1);
  }

  // ---------------------------------------------------------------- part 1

  /** `any { c -> n.overlap(c) }`. */
  predicate AnyOverlap(n: Position, cs: seq<Position>) {
    exists i :: 0 <= i < |cs| && NumberOverlap(n, cs[i])
  }

  /** The numbers that overlap some character in the context of their row. */
  function PartNumbers(ns: seq<Position>, chars: map<int, seq<Position>>): (ps: seq<Position>)
    ensures forall x :: x in ps <==> x in ns && AnyOverlap(x, Context(chars, x.row))
  {
    if ns == [] then []
    else
      var n := ns[|ns| - 1];
      PartNumbers(ns[..|ns| - 1], chars) + (if AnyOverlap(n, Context(chars, n.row)) then [n] else [])
  }

  /** A number's value; the lists it is applied to hold only numbers. */
  function Value(p: Position): int {
    if p.Number? then p.value else 0
  }

  /** `sumOf { it.value }`. */
  function SumValues(ns: seq<Position>): int {
    if ns == [] then 0 else SumValues(ns[..|ns| - 1]) + Value(ns[|ns| - 1])
  }

  /** `part1`: the sum of the numbers next to a symbol. None where a number overflows an Int. */
  function Part1(lines: seq<string>): Option<int> {
    match AllElements(lines)
    case None => None
    case Some(es) => Some(SumValues(PartNumbers(NumbersOf(es), GroupByRow(CharactersOf(es)))))
  }

  /** The numbers that touch one of the symbols, each taken once, in order. */
  ghost function TouchingAny(ns: seq<Position>, cs: seq<Position>): (ts: seq<Position>)
    ensures forall x :: x in ts ==> x in ns
  {
    if ns == [] then []
    else
      var n := ns[|ns| - 1];
      TouchingAny(ns[..|ns| - 1], cs)
        + (if exists i :: 0 <= i < |cs| && Touches(n, cs[i].row, Column(cs[i])) then [n] else [])
  }

  /** A symbol found in the context touches the number. */
  lemma ContextOverlapTouches(n: Position, cs: seq<Position>, j: nat)
    requires n.range.first <= n.range.last
    requires forall c :: c in cs ==> c.range.last == c.range.first + 2 && c.Character?
    requires j < |Context(GroupByRow(cs), n.row)| && NumberOverlap(n, Context(GroupByRow(cs), n.row)[j])
    ensures exists i :: 0 <= i < |cs| && Touches(n, cs[i].row, Column(cs[i]))
  {
    var x := Context(GroupByRow(cs), n.row)[j];
    ContextMembers(cs, n.row);
    var i :| 0 <= i < |cs| && cs[i] == x;
    NumberOverlapTouches(n, cs[i]);
  }

  /** A symbol that touches the number is in the context of the number's row. */
  lemma TouchesInContext(n: Position, cs: seq<Position>, i: nat)
    requires n.range.first <= n.range.last
    requires i < |cs| && cs[i].range.last == cs[i].range.first + 2 && cs[i].Character?
    requires Touches(n, cs[i].row, Column(cs[i]))
    ensures AnyOverlap(n, Context(GroupByRow(cs), n.row))
  {
    var ctx := Context(GroupByRow(cs), n.row);
    NumberOverlapTouches(n, cs[i]);
    ContextMembers(cs, n.row);
    assert cs[i] in ctx;
    var j :| 0 <= j < |ctx| && ctx[j] == cs[i];
    assert NumberOverlap(n, ctx[j]);
  }

  /** Looking for a symbol in the context of the number's row finds one exactly when some symbol touches it. */
  lemma AnyOverlapTouches(n: Position, cs: seq<Position>)
    requires n.range.first <= n.range.last
    requires forall c :: c in cs ==> c.range.last == c.range.first + 2 && c.Character?
    ensures AnyOverlap(n, Context(GroupByRow(cs), n.row)) <==> exists i :: 0 <= i < |cs| && Touches(n, cs[i].row, Column(cs[i]))
  {
    var ctx := Context(GroupByRow(cs), n.row);
    if AnyOverlap(n, ctx) {
      var j :| 0 <= j < |ctx| && NumberOverlap(n, ctx[j]);
      ContextOverlapTouches(n, cs, j);
    }
    if exists i :: 0 <= i < |cs| && Touches(n, cs[i].row, Column(cs[i])) {
      var i :| 0 <= i < |cs| && Touches(n, cs[i].row, Column(cs[i]));
      assert cs[i] in cs;
      TouchesInContext(n, cs, i);
    }
  }

  /** Filtering by the context of each row keeps exactly the numbers that touch a symbol. */
  lemma {:induction false} PartNumbersTouching(ns: seq<Position>, cs: seq<Position>)
    requires forall n :: n in ns ==> n.range.first <= n.range.last
    requires forall c :: c in cs ==> c.range.last == c.range.first + 2 && c.Character?
    ensures PartNumbers(ns, GroupByRow(cs)) == TouchingAny(ns, cs)
  {
    if ns != [] {
      PartNumbersTouching(ns[..|ns| - 1], cs);
      AnyOverlapTouches(ns[|ns| - 1], cs);
    }
  }

  /** Part 1 adds up, once each and in order, the numbers of the schematic that touch a symbol. */
  lemma Part1Sums(lines: seq<string>)
    requires AllElements(lines).Some?
    ensures var es := AllElements(lines).value;
      Part1(lines) == Some(SumValues(TouchingAny(NumbersOf(es), CharactersOf(es))))
  {
    var es := AllElements(lines).value;
    AllElementsShape(lines);
    PartNumbersTouching(NumbersOf(es), CharactersOf(es));
  }

  /** Part 1 fails exactly when some row holds a number that does not fit an Int. */
  lemma Part1Fails(lines: seq<string>)
    ensures Part1(lines).None? <==> exists r :: 0 <= r < |lines| && Elements(lines[r], r).None?
  {
    AllElementsSome(lines);
  }

  // ---------------------------------------------------------------- part 2

  /** `filter { it.overlap(g) }`. */
  function Overlapping(ns: seq<Position>, g: Position): seq<Position> {
    if ns == [] then []
    else Overlapping(ns[..|ns| - 1], g) + (if NumberOverlap(ns[|ns| - 1], g) then [ns[|ns| - 1]] else [])
  }

  /** A gear with exactly two numbers contributes their product; any other gear nothing. */
  function GearRatio(found: seq<Position>): int {
    if |found| == 2 then Value(found[0]) * Value(found[1]) else 0
  }

  /** The gear ratios, each gear's numbers looked up in the context of its row. */
  function GearSum(numbers: map<int, seq<Position>>, gears: seq<Position>): int {
    if gears == [] then 0
    else
      var g := gears[|gears| - 1];
      GearSum(numbers, gears[..|gears| - 1]) + GearRatio(Overlapping(Context(numbers, g.row), g))
  }

  /** `part2`: the sum of the gear ratios. None where a number overflows an Int. */
  function Part2(lines: seq<string>): Option<int> {
    match AllElements(lines)
    case None => None
    case Some(es) => Some(GearSum(GroupByRow(NumbersOf(es)), GearsOf(es)))
  }

  /** The gear ratios, each gear's numbers taken from all the numbers of the schematic. */
  function GearSumAll(ns: seq<Position>, gears: seq<Position>): int {
    if gears == [] then 0
    else GearSumAll(ns, gears[..|gears| - 1]) + GearRatio(Overlapping(ns, gears[|gears| - 1]))
  }

  /** The numbers found against a gear are the numbers that overlap it. */
  lemma {:induction false} OverlappingMembers(ns: seq<Position>, g: Position)
    ensures forall x :: x in Overlapping(ns, g) <==> x in ns && NumberOverlap(x, g)
  {
    if ns != [] {
      OverlappingMembers(ns[..|ns| - 1], g);
      assert ns == ns[..|ns| - 1] + [ns[|ns| - 1]];
    }
  }

  lemma OverlappingSnoc(a: seq<Position>, x: Position, g: Position)
    ensures Overlapping(a + [x], g) == Overlapping(a, g) + (if NumberOverlap(x, g) then [x] else [])
  {
    assert (a + [x])[..|a|] == a;
  }

  /** Row `q` is empty in a list whose rows all lie below `q`. */
  lemma RowFilterNone(es: seq<Position>, q: int)
    requires forall i :: 0 <= i < |es| ==> es[i].row < q
    ensures RowFilter(es, q) == []
  {
    RowFilterMembers(es, q);
  }

  /** The elements at most one row away from row `r`, in order. */
  function NearRows(es: seq<Position>, r: int): seq<Position> {
    if es == [] then []
    else NearRows(es[..|es| - 1], r) + (if Abs(es[|es| - 1].row - r) <= 1 then [es[|es| - 1]] else [])
  }

  /** In a row-ordered list, rows r - 1, r and r + 1 taken one after the other are the rows near r. */
  lemma {:induction false} RowsAroundAreNear(ns: seq<Position>, r: int)
    requires RowsAscending(ns)
    ensures RowFilter(ns, r - 1) + RowFilter(ns, r) + RowFilter(ns, r + 1) == NearRows(ns, r)
  {
    if ns != [] {
      var init := ns[..|ns| - 1];
      var x := ns[|ns| - 1];
      assert ns == init + [x];
      assert forall i :: 0 <= i < |init| ==> init[i].row <= x.row;
      RowsAroundAreNear(init, r);
      RowsAroundStep(init, x, r);
    }
  }

  /** One more element, in a row no lower than the others, goes to the end of the rows near r. */
  lemma RowsAroundStep(init: seq<Position>, x: Position, r: int)
    requires forall i :: 0 <= i < |init| ==> init[i].row <= x.row
    requires RowFilter(init, r - 1) + RowFilter(init, r) + RowFilter(init, r + 1) == NearRows(init, r)
    ensures var ns := init + [x];
      RowFilter(ns, r - 1) + RowFilter(ns, r) + RowFilter(ns, r + 1) == NearRows(ns, r)
  {
    var ns := init + [x];
    var ta := if x.row == r - 1 then [x] else [];
    var tb := if x.row == r then [x] else [];
    var tc := if x.row == r + 1 then [x] else [];
    var a, b, c := RowFilter(init, r - 1), RowFilter(init, r), RowFilter(init, r + 1);
    assert (ta != [] ==> b == [] && c == [] && tb == [] && tc == []) && (tb != [] ==> c == [] && tc == []) by {
      if x.row == r - 1 {
        RowFilterNone(init, r);
        RowFilterNone(init, r + 1);
      } else if x.row == r {
        RowFilterNone(init, r + 1);
      }
    }
    calc {
      RowFilter(ns, r - 1) + RowFilter(ns, r) + RowFilter(ns, r + 1);
      { RowFilterSnoc(init, x, r - 1);
        RowFilterSnoc(init, x, r);
        RowFilterSnoc(init, x, r + 1); }
      (a + ta) + (b + tb) + (c + tc);
      { Regroup(a, b, c, ta, tb, tc); }
      a + b + c + (ta + tb + tc);
      NearRows(init, r) + (ta + tb + tc);
      { assert ns[..|init|] == init; }
      NearRows(ns, r);
    }
  }

  /** An element added to one of three consecutive groups, all later groups empty, goes to the end. */
  lemma Regroup<T>(a: seq<T>, b: seq<T>, c: seq<T>, ta: seq<T>, tb: seq<T>, tc: seq<T>)
    requires ta != [] ==> b == [] && c == [] && tb == [] && tc == []
    requires tb != [] ==> c == [] && tc == []
    ensures (a + ta) + (b + tb) + (c + tc) == a + b + c + (ta + tb + tc)
  {
  }

  /** The numbers overlapping a gear all lie in the rows near the gear's. */
  lemma {:induction false} OverlappingNear(ns: seq<Position>, g: Position)
    ensures Overlapping(NearRows(ns, g.row), g) == Overlapping(ns, g)
  {
    if ns != [] {
      var init := ns[..|ns| - 1];
      var x := ns[|ns| - 1];
      var t := if NumberOverlap(x, g) then [x] else [];
      assert ns == init + [x];
      calc {
        Overlapping(ns, g);
        { OverlappingSnoc(init, x, g); }
        Overlapping(init, g) + t;
        { OverlappingNear(init, g); }
        Overlapping(NearRows(init, g.row), g) + t;
      }
      if Abs(x.row - g.row) <= 1 {
        assert NearRows(ns, g.row) == NearRows(init, g.row) + [x];
        OverlappingSnoc(NearRows(init, g.row), x, g);
      } else {
        assert NearRows(ns, g.row) == NearRows(init, g.row);
      }
    }
  }

  /**
   * For a row-ordered list, the numbers of the three rows around a gear, taken row by row, that overlap
   * the gear are the numbers of the whole list that overlap it.
   */
  lemma RowsOverlapping(ns: seq<Position>, ctx: seq<Position>, g: Position)
    requires RowsAscending(ns)
    requires ctx == RowFilter(ns, g.row - 1) + RowFilter(ns, g.row) + RowFilter(ns, g.row + 1)
    ensures Overlapping(ctx, g) == Overlapping(ns, g)
  {
    RowsAroundAreNear(ns, g.row);
    OverlappingNear(ns, g);
  }

  /** Summing over the gears with the context lookup is summing with the numbers of the whole list. */
  lemma {:induction false} GearSumIsAll(ns: seq<Position>, m: map<int, seq<Position>>, gears: seq<Position>)
    requires RowsAscending(ns)
    requires forall r :: Get(m, r) == RowFilter(ns, r)
    ensures GearSum(m, gears) == GearSumAll(ns, gears)
  {
    if gears != [] {
      GearSumIsAll(ns, m, gears[..|gears| - 1]);
      var g := gears[|gears| - 1];
      var ctx := Context(m, g.row);
      assert ctx == RowFilter(ns, g.row - 1) + RowFilter(ns, g.row) + RowFilter(ns, g.row + 1) by {
        assert Get(m, g.row - 1) == RowFilter(ns, g.row - 1);
        assert Get(m, g.row) == RowFilter(ns, g.row);
        assert Get(m, g.row + 1) == RowFilter(ns, g.row + 1);
      }
      RowsOverlapping(ns, ctx, g);
    }
  }

  /** A subsequence of a row-ordered list is row-ordered; the numbers keep the order of the elements. */
  lemma {:induction false} NumbersAscending(es: seq<Position>)
    requires RowsAscending(es)
    ensures RowsAscending(NumbersOf(es))
  {
    if es != [] {
      var init := es[..|es| - 1];
      NumbersAscending(init);
      var ns := NumbersOf(es);
      forall i, k | 0 <= i < k < |ns|
        ensures ns[i].row <= ns[k].row
      {
        if k == |ns| - 1 && es[|es| - 1].Number? {
          assert ns[i] in init;
        }
      }
    }
  }

  /**
   * Part 2 adds up, over the '*' symbols, the product of the two numbers that touch one, for each '*'
   * touched by exactly two numbers of the whole schematic.
   */
  lemma Part2Sums(lines: seq<string>)
    requires AllElements(lines).Some?
    ensures var es := AllElements(lines).value;
      Part2(lines) == Some(GearSumAll(NumbersOf(es), GearsOf(es)))
  {
    var es := AllElements(lines).value;
    AllElementsShape(lines);
    NumbersAscending(es);
    var ns := NumbersOf(es);
    forall r
      ensures Get(GroupByRow(ns), r) == RowFilter(ns, r)
    {
      GroupByRowFilters(ns, r);
    }
    GearSumIsAll(ns, GroupByRow(ns), GearsOf(es));
  }
}
