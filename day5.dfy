/**
 * Day 5, "If You Give A Seed A Fertilizer": a seed number goes through a chain of maps; each map is a
 * list of triples (destination start, source start, length), and the first triple whose source
 * interval holds the number moves it by the same offset into the destination interval. Part 1 is the
 * lowest location any seed reaches.
 */
module Day5 {
  import opened Wrappers
  import opened Text

  /** One map line: `Triple(ds, ss, rl)`. */
  datatype Mapping = Mapping(ds: int, ss: int, rl: int)

  /** `ss <= x && x < ss + rl`. */
  predicate Covers(t: Mapping, x: int) {
    t.ss <= x < t.ss + t.rl
  }

  // ---------------------------------------------------------------- applying the maps

  /** One map applied to `x`: moved by the first triple that covers it, unchanged when none does. */
  function ApplyMap(m: seq<Mapping>, x: int): int
  {
    if m == [] then x
    else if Covers(m[0], x) then m[0].ds + (x - m[0].ss)
    else ApplyMap(m[1..], x)
  }

  /** The maps applied one after the other, first map first. */
  function ApplyAll(maps: seq<seq<Mapping>>, x: int): int
  {
    if maps == [] then x else ApplyMap(maps[|maps| - 1], ApplyAll(maps[..|maps| - 1], x))
  }

  /** `applyMaps`: the nested loops, leaving the inner one at the first covering triple. */
  method ApplyMaps(maps: seq<seq<Mapping>>, seed: int) returns (preMap: int)
    ensures preMap == ApplyAll(maps, seed)
  {
    preMap := seed;
    for i := 0 to |maps|
      invariant preMap == ApplyAll(maps[..i], seed)
    {
      var m := maps[i];
      ghost var before := preMap;
      for j := 0 to |m|
        invariant preMap == before
        invariant ApplyMap(m, before) == ApplyMap(m[j..], before)
      {
        assert m[j..][0] == m[j] && m[j..][1..] == m[j + 1..];
        var t := m[j];
        if t.ss <= preMap && preMap < t.ss + t.rl {
          preMap := t.ds + (preMap - t.ss);
          break;
        }
      }
      assert preMap == ApplyMap(m, before);
      assert maps[..i + 1][..i] == maps[..i];
    }
    assert maps[..|maps|] == maps;
  }

  /** The first covering triple decides, and it keeps the offset of `x` inside its interval. */
  lemma {:induction false} ApplyMapFirstCover(m: seq<Mapping>, x: int, k: int)
    requires 0 <= k < |m| && Covers(m[k], x)
    requires forall j :: 0 <= j < k ==> !Covers(m[j], x)
    ensures ApplyMap(m, x) == m[k].ds + (x - m[k].ss)
    ensures ApplyMap(m, x) - m[k].ds == x - m[k].ss
  {
    if k > 0 {
      assert !Covers(m[0], x);
      ApplyMapFirstCover(m[1..], x, k - 1);
    }
  }

  /** A value no triple covers passes through unchanged. */
  lemma {:induction false} ApplyMapNoCover(m: seq<Mapping>, x: int)
    requires forall j :: 0 <= j < |m| ==> !Covers(m[j], x)
    ensures ApplyMap(m, x) == x
  {
    if m != [] {
      assert !Covers(m[0], x);
      ApplyMapNoCover(m[1..], x);
    }
  }

  /** Applying `m1 ++ m2` is applying `m1` and then `m2`; no maps at all change nothing. */
  lemma {:induction false} ApplyAllCompose(m1: seq<seq<Mapping>>, m2: seq<seq<Mapping>>, s: int)
    ensures ApplyAll(m1 + m2, s) == ApplyAll(m2, ApplyAll(m1, s))
    ensures ApplyAll([], s) == s
    decreases |m2|
  {
    if m2 == [] {
      assert m1 + m2 == m1;
    } else {
      var n := |m2| - 1;
      assert (m1 + m2)[..|m1 + m2| - 1] == m1 + m2[..n];
      assert (m1 + m2)[|m1 + m2| - 1] == m2[n];
      ApplyAllCompose(m1, m2[..n], s);
    }
  }

  /** Maps without triples leave every seed where it is. */
  lemma {:induction false} EmptyMapsChangeNothing(maps: seq<seq<Mapping>>, s: int)
    requires forall i :: 0 <= i < |maps| ==> maps[i] == []
    ensures ApplyAll(maps, s) == s
  {
    if maps != [] {
      EmptyMapsChangeNothing(maps[..|maps| - 1], s);
    }
  }

  // ---------------------------------------------------------------- parsing

  /** `dat[0].split(": ")[1].split(" ").map { it.toLong() }`. */
  function ParseSeeds(line: string): Option<seq<int>>
  {
    var parts := Split(line, ": ");
    if |parts| < 2 then None else MapAll(Split(parts[1], " "), ToLong)
  }

  /** A seed line written as a title, ": " and numbers separated by one space reads back as the numbers. */
  lemma ParseSeedsRoundTrip(title: string, nums: seq<nat>)
    requires ':' !in title && nums != []
    requires forall i :: 0 <= i < |nums| ==> nums[i] <= LongMax
    ensures ParseSeeds(title + ": " + JoinWith(Numerals(nums), " ")) == Some(nums)
  {
    var body := JoinWith(Numerals(nums), " ");
    NumeralsAvoid(nums, ' ');
    NumeralsAvoid(nums, ':');
    NoCharInJoin(Numerals(nums), ' ', ':');
    SplitAtFirst(title, ": ", body);
    SplitJoinInverse(Numerals(nums), ' ');
    NumeralsToLong(nums);
  }

  /** `seeds.chunked(2).map { it[0]..it[1] }`, as (first, last) pairs; None when a chunk has one seed. */
  function SeedRanges(seeds: seq<int>): (r: Option<seq<(int, int)>>)
    ensures r.Some? <==> |seeds| % 2 == 0
    ensures r.Some? ==> |r.value| * 2 == |seeds|
    ensures r.Some? ==> forall i :: 0 <= i < |r.value| ==> r.value[i] == (seeds[2 * i], seeds[2 * i + 1])
    decreases |seeds|
  {
    if |seeds| == 0 then Some([])
    else if |seeds| == 1 then None
    else
      match SeedRanges(seeds[2..])
      case None => None
      case Some(rest) => Some([(seeds[0], seeds[1])] + rest)
  }

  /** `Triple(d.split(" ")[0].toLong(), d.split(" ")[1].toLong(), d.split(" ")[2].toLong())`. */
  function ParseTriple(d: string): Option<Mapping>
  {
    var parts := Split(d, " ");
    if |parts| < 3 then None
    else
      match (ToLong(parts[0]), ToLong(parts[1]), ToLong(parts[2]))
      case (Some(ds), Some(ss), Some(rl)) => Some(Mapping(ds, ss, rl))
      case _ => None
  }

  /** A line that opens a new map. */
  predicate IsHeader(d: string) {
    !IsBlank(d) && ':' in d
  }

  /** The maps closed so far and the one being filled (`maps` and `currMap`). */
  datatype Sections = Sections(maps: seq<seq<Mapping>>, current: seq<Mapping>)

  /** One turn of the loop over `dat.drop(3)`. */
  function Step(st: Sections, d: string): Option<Sections>
  {
    if IsBlank(d) then Some(st)
    else if ':' in d then Some(Sections(st.maps + [st.current], []))
    else
      match ParseTriple(d)
      case None => None
      case Some(t) => Some(Sections(st.maps, st.current + [t]))
  }

  /** The loop over the lines from its start, None once a triple line fails. */
  function Sectioned(lines: seq<string>): Option<Sections>
  {
    if lines == [] then Some(Sections([], []))
    else
      match Sectioned(lines[..|lines| - 1])
      case None => None
      case Some(st) => Step(st, lines[|lines| - 1])
  }

  /** The maps `parse` returns: the closed ones and the last one. */
  function MapsOf(dat: seq<string>): Option<seq<seq<Mapping>>>
  {
    var rest := if |dat| <= 3 then [] else dat[3..];
    match Sectioned(rest)
    case None => None
    case Some(st) => Some(st.maps + [st.current])
  }

  /** Once a line fails, every longer prefix fails. */
  lemma {:induction false} SectionedFailureStays(lines: seq<string>, n: nat)
    requires n <= |lines| && Sectioned(lines[..n]).None?
    ensures Sectioned(lines).None?
    decreases |lines| - n
  {
    if n < |lines| {
      assert lines[..n + 1][..n] == lines[..n];
      SectionedFailureStays(lines, n + 1);
    } else {
      assert lines[..n] == lines;
    }
  }

  /** The map-building loop of `parse`. */
  method ParseMaps(dat: seq<string>) returns (result: Option<seq<seq<Mapping>>>)
    ensures result == MapsOf(dat)
  {
    var rest := if |dat| <= 3 then [] else dat[3..];
    var maps: seq<seq<Mapping>> := [];
    var currMap: seq<Mapping> := [];
    for i := 0 to |rest|
      invariant Sectioned(rest[..i]) == Some(Sections(maps, currMap))
    {
      assert rest[..i + 1][..i] == rest[..i];
      var d := rest[i];
      if IsBlank(d) {
        continue;
      }
      if ':' in d {
        maps := maps + [currMap];
        currMap := [];
      } else {
        var t := ParseTriple(d);
        if t.None? {
          SectionedFailureStays(rest, i + 1);
          return None;
        }
        currMap := currMap + [t.value];
      }
    }
    assert rest[..|rest|] == rest;
    maps := maps + [currMap];
    result := Some(maps);
  }

  /** The number of header lines. */
  function Headers(lines: seq<string>): nat
  {
    if lines == [] then 0 else Headers(lines[..|lines| - 1]) + (if IsHeader(lines[|lines| - 1]) then 1 else 0)
  }

  /** The lines that hold triples: neither blank nor headers. */
  function DataLines(lines: seq<string>): seq<string>
  {
    if lines == [] then []
    else
      var d := lines[|lines| - 1];
      DataLines(lines[..|lines| - 1]) + (if IsBlank(d) || ':' in d then [] else [d])
  }

  /** All triples of a list of maps, in order. */
  function Flatten(maps: seq<seq<Mapping>>): seq<Mapping>
  {
    if maps == [] then [] else Flatten(maps[..|maps| - 1]) + maps[|maps| - 1]
  }

  /** Flattening after appending one map appends its triples. */
  lemma FlattenSnoc(maps: seq<seq<Mapping>>, m: seq<Mapping>)
    ensures Flatten(maps + [m]) == Flatten(maps) + m
  {
    assert (maps + [m])[..|maps|] == maps;
  }

  /** Mapping one more element: the results so far and that element's, or None. */
  lemma MapAllSnoc(xs: seq<string>, x: string)
    ensures MapAll(xs + [x], ParseTriple) ==
      match MapAll(xs, ParseTriple)
      case None => None
      case Some(ys) => if ParseTriple(x).Some? then Some(ys + [ParseTriple(x).value]) else None
  {
    assert (xs + [x])[..|xs|] == xs;
  }

  /** What the loop over `lines` has built, in terms of the headers and data lines among them. */
  ghost predicate Agrees(lines: seq<string>) {
    (Sectioned(lines).Some? <==> MapAll(DataLines(lines), ParseTriple).Some?) &&
    (Sectioned(lines).Some? ==>
      |Sectioned(lines).value.maps| == Headers(lines) &&
      Flatten(Sectioned(lines).value.maps) + Sectioned(lines).value.current == MapAll(DataLines(lines), ParseTriple).value)
  }

  /** A blank line or a header adds no data line. */
  lemma SkippedLine(front: seq<string>, d: string)
    requires IsBlank(d) || ':' in d
    ensures DataLines(front + [d]) == DataLines(front)
    ensures Headers(front + [d]) == Headers(front) + (if IsBlank(d) then 0 else 1)
  {
    assert (front + [d])[..|front|] == front;
  }

  /** A triple line adds itself as a data line and no header. */
  lemma DataLine(front: seq<string>, d: string)
    requires !IsBlank(d) && ':' !in d
    ensures DataLines(front + [d]) == DataLines(front) + [d]
    ensures Headers(front + [d]) == Headers(front)
  {
    assert (front + [d])[..|front|] == front;
  }

  /** One more turn of the loop keeps the agreement. */
  lemma StepAgrees(front: seq<string>, d: string)
    requires Agrees(front)
    ensures Agrees(front + [d])
  {
    var lines := front + [d];
    assert lines[..|lines| - 1] == front && lines[|lines| - 1] == d;
    assert Sectioned(lines) == match Sectioned(front) case None => None case Some(st) => Step(st, d);
    if IsBlank(d) {
      BlankAgrees(front, d);
    } else if ':' in d {
      HeaderAgrees(front, d);
    } else {
      DataAgrees(front, d);
    }
  }

  lemma BlankAgrees(front: seq<string>, d: string)
    requires Agrees(front) && IsBlank(d)
    requires Sectioned(front + [d]) == match Sectioned(front) case None => None case Some(st) => Step(st, d)
    ensures Agrees(front + [d])
  {
    SkippedLine(front, d);
  }

  lemma HeaderAgrees(front: seq<string>, d: string)
    requires Agrees(front) && !IsBlank(d) && ':' in d
    requires Sectioned(front + [d]) == match Sectioned(front) case None => None case Some(st) => Step(st, d)
    ensures Agrees(front + [d])
  {
    SkippedLine(front, d);
    if Sectioned(front).Some? {
      var st := Sectioned(front).value;
      FlattenSnoc(st.maps, st.current);
    }
  }

  lemma DataAgrees(front: seq<string>, d: string)
    requires Agrees(front) && !IsBlank(d) && ':' !in d
    requires Sectioned(front + [d]) == match Sectioned(front) case None => None case Some(st) => Step(st, d)
    ensures Agrees(front + [d])
  {
    DataLine(front, d);
    MapAllSnoc(DataLines(front), d);
  }

  /**
   * Every header closes one map, and the triples of the data lines fill the maps in order. The loop
   * fails exactly when a data line does. Where each map starts and ends is `SectionedAtHeader`.
   */
  lemma {:induction false} SectionedContents(lines: seq<string>)
    ensures Sectioned(lines).Some? <==> MapAll(DataLines(lines), ParseTriple).Some?
    ensures Sectioned(lines).Some? ==>
      |Sectioned(lines).value.maps| == Headers(lines) &&
      Flatten(Sectioned(lines).value.maps) + Sectioned(lines).value.current == MapAll(DataLines(lines), ParseTriple).value
  {
    if lines == [] {
    } else {
      var n := |lines| - 1;
      SectionedContents(lines[..n]);
      StepAgrees(lines[..n], lines[n]);
      assert lines[..n] + [lines[n]] == lines;
    }
  }

  /**
   * `parse` succeeds exactly when every triple line after the first three lines parses; it then returns
   * one more map than there are header lines, and the maps hold the triples of those lines in order.
   */
  lemma MapsOfContents(dat: seq<string>)
    ensures var rest := if |dat| <= 3 then [] else dat[3..];
      (MapsOf(dat).Some? <==> MapAll(DataLines(rest), ParseTriple).Some?) &&
      (MapsOf(dat).Some? ==>
        |MapsOf(dat).value| == Headers(rest) + 1 &&
        Flatten(MapsOf(dat).value) == MapAll(DataLines(rest), ParseTriple).value)
  {
    var rest := if |dat| <= 3 then [] else dat[3..];
    SectionedContents(rest);
    if Sectioned(rest).Some? {
      var st := Sectioned(rest).value;
      FlattenSnoc(st.maps, st.current);
    }
  }

  /** No line of `lines` opens a map. */
  predicate NoHeaders(lines: seq<string>) {
    forall i :: 0 <= i < |lines| ==> !IsHeader(lines[i])
  }

  /**
   * Lines without a header only fill the current map: the closed maps stay as they are, and the
   * current map grows by the triples of the data lines among them, in order.
   */
  lemma {:induction false} SectionedNoHeader(front: seq<string>, back: seq<string>)
    requires NoHeaders(back) && Sectioned(front + back).Some?
    ensures Sectioned(front).Some? && MapAll(DataLines(back), ParseTriple).Some?
    ensures Sectioned(front + back).value.maps == Sectioned(front).value.maps
    ensures Sectioned(front + back).value.current ==
      Sectioned(front).value.current + MapAll(DataLines(back), ParseTriple).value
    decreases |back|
  {
    if back == [] {
      assert front + back == front;
    } else {
      var n := |back| - 1;
      var b, d := back[..n], back[n];
      var lines := front + back;
      assert lines[..|lines| - 1] == front + b && lines[|lines| - 1] == d;
      assert !IsHeader(d) && NoHeaders(b);
      assert Sectioned(lines) == match Sectioned(front + b) case None => None case Some(st) => Step(st, d);
      SectionedNoHeader(front, b);
      if IsBlank(d) {
        assert DataLines(back) == DataLines(b);
      } else {
        assert DataLines(back) == DataLines(b) + [d];
        MapAllSnoc(DataLines(b), d);
      }
    }
  }

  /**
   * A header closes the current map and opens an empty one, so the map it opens holds exactly the
   * triples of the data lines up to the next header.
   */
  lemma SectionedAtHeader(front: seq<string>, h: string, back: seq<string>)
    requires IsHeader(h) && NoHeaders(back) && Sectioned(front + [h] + back).Some?
    ensures Sectioned(front).Some? && MapAll(DataLines(back), ParseTriple).Some?
    ensures Sectioned(front + [h] + back).value.maps == Sectioned(front).value.maps + [Sectioned(front).value.current]
    ensures Sectioned(front + [h] + back).value.current == MapAll(DataLines(back), ParseTriple).value
  {
    SectionedNoHeader(front + [h], back);
    var lines := front + [h];
    assert lines[..|lines| - 1] == front && lines[|lines| - 1] == h;
  }

  /** A header, a triple line, a header and a triple line: each triple goes in the map its header opened. */
  lemma TwoSections(a: string, x: string, b: string, y: string)
    requires IsHeader(a) && IsHeader(b) && !IsBlank(x) && ':' !in x && !IsBlank(y) && ':' !in y
    requires Sectioned([a, x, b, y]).Some?
    ensures ParseTriple(x).Some? && ParseTriple(y).Some?
    ensures Sectioned([a, x, b, y]) == Some(Sections([[], [ParseTriple(x).value]], [ParseTriple(y).value]))
  {
    var front := [a, x];
    assert front + [b] + [y] == [a, x, b, y];
    SectionedAtHeader(front, b, [y]);
    OneDataLine(y);
    assert [] + [a] + [x] == front;
    SectionedAtHeader([], a, [x]);
    OneDataLine(x);
    var tx, ty := ParseTriple(x).value, ParseTriple(y).value;
    var st := Sectioned(front).value;
    assert st.maps == [[]] && st.current == [tx];
    assert st.maps + [st.current] == [[], [tx]];
  }

  /** A single triple line is its own data line. */
  lemma OneDataLine(x: string)
    requires !IsBlank(x) && ':' !in x
    ensures MapAll(DataLines([x]), ParseTriple) == if ParseTriple(x).Some? then Some([ParseTriple(x).value]) else None
  {
    assert [x][..0] == [];
    assert DataLines([x]) == [x];
    MapAllSnoc([], x);
    assert [] + [x] == [x];
    assert MapAll([], ParseTriple) == Some([]);
    if ParseTriple(x).Some? {
      assert [] + [ParseTriple(x).value] == [ParseTriple(x).value];
    }
  }

  /** With no header after the first three lines, `parse` returns the one map of all the triples. */
  lemma MapsOfNoHeader(dat: seq<string>)
    requires |dat| > 3 && NoHeaders(dat[3..]) && MapsOf(dat).Some?
    ensures MapAll(DataLines(dat[3..]), ParseTriple).Some?
    ensures MapsOf(dat).value == [MapAll(DataLines(dat[3..]), ParseTriple).value]
  {
    assert [] + dat[3..] == dat[3..];
    SectionedNoHeader([], dat[3..]);
    var st := Sectioned(dat[3..]).value;
    var ts := MapAll(DataLines(dat[3..]), ParseTriple).value;
    assert |st.maps| == 0;
    assert st.current == ts;
    assert MapsOf(dat) == Some(st.maps + [st.current]);
    assert st.maps + [st.current] == [ts];
  }

  /** The last map `parse` returns holds exactly the triples after the last header. */
  lemma MapsOfAfterLastHeader(dat: seq<string>, front: seq<string>, h: string, back: seq<string>)
    requires |dat| > 3 && dat[3..] == front + [h] + back
    requires IsHeader(h) && NoHeaders(back) && MapsOf(dat).Some?
    ensures Sectioned(front).Some? && MapAll(DataLines(back), ParseTriple).Some?
    ensures MapsOf(dat).value ==
      Sectioned(front).value.maps + [Sectioned(front).value.current, MapAll(DataLines(back), ParseTriple).value]
  {
    SectionedAtHeader(front, h, back);
  }

  // ---------------------------------------------------------------- part 1

  /** `minByOrNull { it.value }?.value ?: 0L` over the locations. */
  function MinOrZero(xs: seq<int>): (m: int)
    ensures xs == [] ==> m == 0
    ensures xs != [] ==> m in xs && forall i :: 0 <= i < |xs| ==> m <= xs[i]
  {
    if xs == [] then 0
    else if |xs| == 1 then xs[0]
    else
      var rest := MinOrZero(xs[..|xs| - 1]);
      assert forall i :: 0 <= i < |xs| - 1 ==> xs[..|xs| - 1][i] == xs[i];
      if xs[|xs| - 1] < rest then xs[|xs| - 1] else rest
  }

  /** Each seed's location. */
  function Locations(maps: seq<seq<Mapping>>, seeds: seq<int>): (locs: seq<int>)
    ensures |locs| == |seeds|
    ensures forall i :: 0 <= i < |seeds| ==> locs[i] == ApplyAll(maps, seeds[i])
  {
    seq(|seeds|, i requires 0 <= i < |seeds| => ApplyAll(maps, seeds[i]))
  }

  /** `part1` on the lines of the file (trimmed first): None when a line is missing or malformed. */
  function Part1(lines: seq<string>): Option<int>
  {
    var dat := seq(|lines|, i requires 0 <= i < |lines| => Trim(lines[i]));
    if dat == [] then None
    else
      match (ParseSeeds(dat[0]), MapsOf(dat))
      case (Some(seeds), Some(maps)) => Some(MinOrZero(Locations(maps, seeds)))
      case _ => None
  }

  /** Part 1 is the lowest location of any seed, 0 without seeds. */
  lemma Part1IsLowestLocation(lines: seq<string>)
    ensures Part1(lines).Some? ==>
      var dat := seq(|lines|, i requires 0 <= i < |lines| => Trim(lines[i]));
      var seeds := ParseSeeds(dat[0]).value;
      var maps := MapsOf(dat).value;
      (seeds == [] ==> Part1(lines).value == 0) &&
      (seeds != [] ==>
        (exists i :: 0 <= i < |seeds| && Part1(lines).value == ApplyAll(maps, seeds[i])) &&
        forall i :: 0 <= i < |seeds| ==> Part1(lines).value <= ApplyAll(maps, seeds[i]))
  {
    if Part1(lines).Some? {
      var dat := seq(|lines|, i requires 0 <= i < |lines| => Trim(lines[i]));
      var seeds := ParseSeeds(dat[0]).value;
      var maps := MapsOf(dat).value;
      var locs := Locations(maps, seeds);
      if seeds != [] {
        var k :| 0 <= k < |locs| && locs[k] == MinOrZero(locs);
        assert Part1(lines).value == ApplyAll(maps, seeds[k]);
      }
    }
  }
}
