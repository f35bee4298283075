/**
 * The Kotlin collection functions that take a `Comparator`: `maxWith` and `toSortedMap`.
 * A comparator is a function to -1, 0 or 1; a tie (0) means "equal keys".
 */
module Ordering {
  import opened Seqs

  /** `Integer.compare`. */
  function CompareInt(a: int, b: int): (c: int)
    ensures c == -1 || c == 0 || c == 1
    ensures c < 0 <==> a < b
    ensures c == 0 <==> a == b
  {
    if a < b then -1 else if a == b then 0 else 1
  }

  /**
   * On the elements of `s`, `cmp` compares as the integers `key` assigns to them do; such a `cmp`
   * is antisymmetric and transitive there, as a `Comparator` must be.
   */
  predicate OrderedBy<T(==)>(cmp: (T, T) -> int, key: T -> int, s: seq<T>) {
    forall x, y | x in s && y in s :: cmp(x, y) == CompareInt(key(x), key(y))
  }

  lemma OrderedByPart<T>(cmp: (T, T) -> int, key: T -> int, s: seq<T>, t: seq<T>)
    requires OrderedBy(cmp, key, s)
    requires forall x :: x in t ==> x in s
    ensures OrderedBy(cmp, key, t)
  {
  }

  // ---------------------------------------------------------------- maxWith

  /** `maxWith(cmp)`: the running maximum is replaced only by a strictly greater element. */
  function MaxWithIndex<T>(cs: seq<T>, cmp: (T, T) -> int): (k: nat)
    requires |cs| > 0
    ensures k < |cs|
  {
    if |cs| == 1 then 0
    else
      var m := MaxWithIndex(cs[..|cs| - 1], cmp);
      if cmp(cs[m], cs[|cs| - 1]) < 0 then |cs| - 1 else m
  }

  /** One step of `maxWith`: the maximum of the front either stays or loses to the last element. */
  lemma MaxWithStep<T>(cs: seq<T>, cmp: (T, T) -> int, key: T -> int, m: nat)
    requires |cs| > 1 && m < |cs| - 1 && OrderedBy(cmp, key, cs)
    requires forall i :: 0 <= i < |cs| - 1 ==> cmp(cs[i], cs[m]) <= 0
    requires forall i :: 0 <= i < m ==> cmp(cs[i], cs[m]) < 0
    ensures var k := if cmp(cs[m], cs[|cs| - 1]) < 0 then |cs| - 1 else m;
      (forall i :: 0 <= i < |cs| ==> cmp(cs[i], cs[k]) <= 0) && (forall i :: 0 <= i < k ==> cmp(cs[i], cs[k]) < 0)
  {
    var last := cs[|cs| - 1];
    assert last in cs && cs[m] in cs;
    forall i | 0 <= i < |cs| - 1 ensures key(cs[i]) <= key(cs[m]) {
      assert cs[i] in cs;
    }
  }

  /** `maxWith` returns a greatest element, and the first of the greatest ones. */
  lemma {:induction false} MaxWithIsFirstGreatest<T>(cs: seq<T>, cmp: (T, T) -> int, key: T -> int)
    requires |cs| > 0 && OrderedBy(cmp, key, cs)
    ensures forall i :: 0 <= i < |cs| ==> cmp(cs[i], cs[MaxWithIndex(cs, cmp)]) <= 0
    ensures forall i :: 0 <= i < MaxWithIndex(cs, cmp) ==> cmp(cs[i], cs[MaxWithIndex(cs, cmp)]) < 0
  {
    if |cs| > 1 {
      var front := cs[..|cs| - 1];
      OrderedByPart(cmp, key, cs, front);
      MaxWithIsFirstGreatest(front, cmp, key);
      MaxWithStep(cs, cmp, key, MaxWithIndex(front, cmp));
    }
  }

  // ---------------------------------------------------------------- toSortedMap

  /**
   * `TreeMap.put` on the ascending entry list of the map: a key that ties with a present key
   * replaces that key's value and keeps the present key; otherwise a new entry goes in its place.
   */
  function Insert<K, V>(es: seq<(K, V)>, k: K, v: V, cmp: (K, K) -> int): (r: seq<(K, V)>)
    ensures |es| <= |r| <= |es| + 1
  {
    if es == [] then [(k, v)]
    else
      var c := cmp(k, es[0].0);
      if c < 0 then [(k, v)] + es
      else if c == 0 then [(es[0].0, v)] + es[1..]
      else [es[0]] + Insert(es[1..], k, v, cmp)
  }

  /** `toSortedMap(cmp)` of a map with the given entries, in iteration order: one `put` per entry. */
  function ToSortedMap<K, V>(entries: seq<(K, V)>, cmp: (K, K) -> int): (r: seq<(K, V)>)
    ensures |r| <= |entries|
  {
    if entries == [] then []
    else
      var e := entries[|entries| - 1];
      Insert(ToSortedMap(entries[..|entries| - 1], cmp), e.0, e.1, cmp)
  }

  /** The entries go strictly upwards in key order: no two keys tie. */
  predicate StrictlySorted<K, V>(es: seq<(K, V)>, cmp: (K, K) -> int) {
    forall i, j :: 0 <= i < j < |es| ==> cmp(es[i].0, es[j].0) < 0
  }

  /** No two of the keys tie. */
  predicate TieFree<K, V>(es: seq<(K, V)>, cmp: (K, K) -> int) {
    forall i, j :: 0 <= i < |es| && 0 <= j < |es| && i != j ==> cmp(es[i].0, es[j].0) != 0
  }

  /** The keys of an insertion come from the old keys and the new one. */
  lemma {:induction false} InsertKeys<K, V>(es: seq<(K, V)>, k: K, v: V, cmp: (K, K) -> int)
    ensures forall x :: x in Keys(Insert(es, k, v, cmp)) ==> x in Keys(es) || x == k
    decreases |es|, 1
  {
    if es != [] && cmp(k, es[0].0) > 0 {
      InsertKeysBehind(es, k, v, cmp);
    } else {
      InsertKeysFront(es, k, v, cmp);
    }
  }

  /** The cases of `InsertKeys` where the new key goes first or replaces the first entry's value. */
  lemma InsertKeysFront<K, V>(es: seq<(K, V)>, k: K, v: V, cmp: (K, K) -> int)
    requires es == [] || cmp(k, es[0].0) <= 0
    ensures forall x :: x in Keys(Insert(es, k, v, cmp)) ==> x in Keys(es) || x == k
  {
    var r := Insert(es, k, v, cmp);
    forall x | x in Keys(r) ensures x in Keys(es) || x == k {
      var i :| 0 <= i < |r| && Keys(r)[i] == x;
      if es != [] && cmp(k, es[0].0) == 0 && i > 0 {
        assert r[i] == es[i];
        assert Keys(es)[i] == x;
      } else if es != [] && cmp(k, es[0].0) == 0 {
        assert Keys(es)[0] == x;
      } else if es != [] && i > 0 {
        assert r[i] == es[i - 1];
        assert Keys(es)[i - 1] == x;
      }
    }
  }

  /** The case of `InsertKeys` where the new key goes behind the first entry. */
  lemma {:induction false} InsertKeysBehind<K, V>(es: seq<(K, V)>, k: K, v: V, cmp: (K, K) -> int)
    requires es != [] && cmp(k, es[0].0) > 0
    ensures forall x :: x in Keys(Insert(es, k, v, cmp)) ==> x in Keys(es) || x == k
    decreases |es|, 0
  {
    var rest := Insert(es[1..], k, v, cmp);
    assert es == [es[0]] + es[1..];
    assert Insert(es, k, v, cmp) == [es[0]] + rest;
    KeysCons(es[0], es[1..]);
    KeysCons(es[0], rest);
    InsertKeys(es[1..], k, v, cmp);
    ConsKeysFrom(es[0].0, Keys(es[1..]), Keys(rest), k, Keys(es), Keys(Insert(es, k, v, cmp)));
  }

  lemma ConsKeysFrom<K>(head: K, before: seq<K>, after: seq<K>, k: K, whole: seq<K>, result: seq<K>)
    requires forall x :: x in after ==> x in before || x == k
    requires whole == [head] + before && result == [head] + after
    ensures forall x :: x in result ==> x in whole || x == k
  {
    forall x | x in result ensures x in whole || x == k {
      if x != head {
        assert x in after;
      }
    }
  }

  lemma ConsKeysKept<K>(head: K, before: seq<K>, after: seq<K>, whole: seq<K>, result: seq<K>)
    requires forall x :: x in before ==> x in after
    requires whole == [head] + before && result == [head] + after
    ensures forall x :: x in whole ==> x in result
  {
    forall x | x in whole ensures x in result {
      if x != head {
        assert x in before;
      }
    }
  }

  /** An insertion keeps every old key (a tying key keeps the present key, not the new one). */
  lemma {:induction false} InsertKeepsKeys<K, V>(es: seq<(K, V)>, k: K, v: V, cmp: (K, K) -> int)
    ensures forall x :: x in Keys(es) ==> x in Keys(Insert(es, k, v, cmp))
    decreases |es|, 1
  {
    if es != [] && cmp(k, es[0].0) > 0 {
      InsertKeepsKeysBehind(es, k, v, cmp);
    } else {
      InsertKeepsKeysFront(es, k, v, cmp);
    }
  }

  /** The cases of `InsertKeepsKeys` where the new key goes first or replaces the first entry's value. */
  lemma InsertKeepsKeysFront<K, V>(es: seq<(K, V)>, k: K, v: V, cmp: (K, K) -> int)
    requires es == [] || cmp(k, es[0].0) <= 0
    ensures forall x :: x in Keys(es) ==> x in Keys(Insert(es, k, v, cmp))
  {
    var r := Insert(es, k, v, cmp);
    forall x | x in Keys(es) ensures x in Keys(r) {
      var i :| 0 <= i < |es| && Keys(es)[i] == x;
      if cmp(k, es[0].0) == 0 && i > 0 {
        assert r[i] == es[i];
        assert Keys(r)[i] == x;
      } else if cmp(k, es[0].0) == 0 {
        assert Keys(r)[0] == x;
      } else {
        assert r[i + 1] == es[i];
        assert Keys(r)[i + 1] == x;
      }
    }
  }

  /** The case of `InsertKeepsKeys` where the new key goes behind the first entry. */
  lemma {:induction false} InsertKeepsKeysBehind<K, V>(es: seq<(K, V)>, k: K, v: V, cmp: (K, K) -> int)
    requires es != [] && cmp(k, es[0].0) > 0
    ensures forall x :: x in Keys(es) ==> x in Keys(Insert(es, k, v, cmp))
    decreases |es|, 0
  {
    var rest := Insert(es[1..], k, v, cmp);
    assert es == [es[0]] + es[1..];
    assert Insert(es, k, v, cmp) == [es[0]] + rest;
    KeysCons(es[0], es[1..]);
    KeysCons(es[0], rest);
    InsertKeepsKeys(es[1..], k, v, cmp);
    ConsKeysKept(es[0].0, Keys(es[1..]), Keys(rest), Keys(es), Keys(Insert(es, k, v, cmp)));
  }

  lemma PrependSorted<K, V>(e: (K, V), es: seq<(K, V)>, cmp: (K, K) -> int)
    requires StrictlySorted(es, cmp)
    requires forall j :: 0 <= j < |es| ==> cmp(e.0, es[j].0) < 0
    ensures StrictlySorted([e] + es, cmp)
  {
    var r := [e] + es;
    forall i, j | 0 <= i < j < |r| ensures cmp(r[i].0, r[j].0) < 0 {
      if i == 0 {
        assert r[j] == es[j - 1];
      } else {
        assert r[i] == es[i - 1] && r[j] == es[j - 1];
      }
    }
  }

  /** Inserting into an ascending entry list keeps it ascending. */
  lemma {:induction false} InsertSorted<K, V>(es: seq<(K, V)>, k: K, v: V, cmp: (K, K) -> int, key: K -> int)
    requires OrderedBy(cmp, key, Keys(es) + [k])
    requires StrictlySorted(es, cmp)
    ensures StrictlySorted(Insert(es, k, v, cmp), cmp)
    decreases |es|
  {
    if es != [] {
      var ks := Keys(es) + [k];
      assert es[0].0 in ks && k in ks;
      var c := cmp(k, es[0].0);
      if c < 0 {
        forall j | 0 <= j < |es| ensures cmp(k, es[j].0) < 0 {
          assert es[j].0 in ks;
        }
        PrependSorted((k, v), es, cmp);
      } else if c > 0 {
        assert Keys(es[1..]) + [k] == ks[1..];
        OrderedByPart(cmp, key, ks, Keys(es[1..]) + [k]);
        InsertSorted(es[1..], k, v, cmp, key);
        InsertAbove(es, k, v, cmp, key);
      } else {
        forall j | 0 <= j < |es[1..]| ensures cmp(es[0].0, es[1..][j].0) < 0 {
          assert es[1..][j] == es[j + 1];
        }
        PrependSorted((es[0].0, v), es[1..], cmp);
      }
    }
  }

  /** Every key that an insertion behind the first entry leaves is above the first key. */
  lemma InsertAbove<K, V>(es: seq<(K, V)>, k: K, v: V, cmp: (K, K) -> int, key: K -> int)
    requires es != [] && OrderedBy(cmp, key, Keys(es) + [k])
    requires StrictlySorted(es, cmp) && cmp(k, es[0].0) > 0
    requires StrictlySorted(Insert(es[1..], k, v, cmp), cmp)
    ensures StrictlySorted(Insert(es, k, v, cmp), cmp)
  {
    var ks := Keys(es) + [k];
    assert es[0].0 in ks && k in ks;
    InsertKeys(es[1..], k, v, cmp);
    var rest := Insert(es[1..], k, v, cmp);
    forall j | 0 <= j < |rest| ensures cmp(es[0].0, rest[j].0) < 0 {
      assert rest[j].0 in Keys(rest);
      if rest[j].0 != k {
        var l :| 0 <= l < |es[1..]| && Keys(es[1..])[l] == rest[j].0;
        assert es[l + 1].0 == rest[j].0;
      }
    }
    PrependSorted(es[0], rest, cmp);
  }

  /** The sorted map's keys are among the input keys, so the comparator still applies to them. */
  lemma {:induction false} ToSortedMapKeys<K, V>(entries: seq<(K, V)>, cmp: (K, K) -> int)
    ensures forall x :: x in Keys(ToSortedMap(entries, cmp)) ==> x in Keys(entries)
  {
    if entries != [] {
      var front := entries[..|entries| - 1];
      var e := entries[|entries| - 1];
      ToSortedMapKeys(front, cmp);
      InsertKeys(ToSortedMap(front, cmp), e.0, e.1, cmp);
      forall x | x in Keys(front) ensures x in Keys(entries) {
        var i :| 0 <= i < |front| && Keys(front)[i] == x;
        assert Keys(entries)[i] == x;
      }
      assert Keys(entries)[|entries| - 1] == e.0;
    }
  }

  /** `toSortedMap` lists its entries in strictly ascending key order. */
  lemma {:induction false} ToSortedMapSorted<K, V>(entries: seq<(K, V)>, cmp: (K, K) -> int, key: K -> int)
    requires OrderedBy(cmp, key, Keys(entries))
    ensures StrictlySorted(ToSortedMap(entries, cmp), cmp)
  {
    if entries != [] {
      var front := entries[..|entries| - 1];
      var e := entries[|entries| - 1];
      OrderedByPart(cmp, key, Keys(entries), Keys(front));
      ToSortedMapSorted(front, cmp, key);
      ToSortedMapKeys(front, cmp);
      var sorted := ToSortedMap(front, cmp);
      forall x | x in Keys(sorted) + [e.0] ensures x in Keys(entries) {
        if x in Keys(sorted) {
          var i :| 0 <= i < |front| && Keys(front)[i] == x;
          assert Keys(entries)[i] == x;
        } else {
          assert Keys(entries)[|entries| - 1] == e.0;
        }
      }
      OrderedByPart(cmp, key, Keys(entries), Keys(sorted) + [e.0]);
      InsertSorted(sorted, e.0, e.1, cmp, key);
    }
  }

  /** A key that ties with none of the present keys adds its own entry and keeps every other. */
  lemma {:induction false} InsertWithoutTie<K, V>(es: seq<(K, V)>, k: K, v: V, cmp: (K, K) -> int)
    requires forall j :: 0 <= j < |es| ==> cmp(k, es[j].0) != 0
    ensures multiset(Insert(es, k, v, cmp)) == multiset(es) + multiset{(k, v)}
    decreases |es|
  {
    if es != [] && cmp(k, es[0].0) > 0 {
      forall j | 0 <= j < |es[1..]| ensures cmp(k, es[1..][j].0) != 0 {
        assert es[1..][j] == es[j + 1];
      }
      InsertWithoutTie(es[1..], k, v, cmp);
      assert es == [es[0]] + es[1..];
    }
  }

  /** A key that ties with a present key replaces that entry's value and keeps its key and place. */
  lemma {:induction false} InsertWithTie<K, V>(es: seq<(K, V)>, k: K, v: V, cmp: (K, K) -> int, key: K -> int, j: nat)
    requires OrderedBy(cmp, key, Keys(es) + [k]) && StrictlySorted(es, cmp)
    requires j < |es| && cmp(k, es[j].0) == 0
    ensures Insert(es, k, v, cmp) == es[j := (es[j].0, v)]
    decreases |es|
  {
    var ks := Keys(es) + [k];
    if j > 0 {
      assert cmp(k, es[0].0) > 0 by {
        assert es[0].0 in ks && es[j].0 in ks && k in ks;
        assert cmp(es[0].0, es[j].0) < 0;
      }
      assert OrderedBy(cmp, key, Keys(es[1..]) + [k]) by {
        assert Keys(es[1..]) + [k] == ks[1..];
        OrderedByPart(cmp, key, ks, Keys(es[1..]) + [k]);
      }
      assert es[1..][j - 1] == es[j];
      InsertWithTie(es[1..], k, v, cmp, key, j - 1);
      UpdateBehindHead(es, j, (es[j].0, v));
    } else {
      assert [(es[0].0, v)] + es[1..] == es[0 := (es[0].0, v)];
    }
  }

  lemma UpdateBehindHead<T>(s: seq<T>, j: nat, x: T)
    requires 0 < j < |s|
    ensures [s[0]] + s[1..][j - 1 := x] == s[j := x]
  {
    var t := [s[0]] + s[1..][j - 1 := x];
    assert forall i :: 0 <= i < |s| ==> t[i] == s[j := x][i];
  }

  /** When no two input keys tie, `toSortedMap` keeps every entry: its result is a permutation of the input. */
  lemma {:induction false} ToSortedMapPermutation<K, V>(entries: seq<(K, V)>, cmp: (K, K) -> int)
    requires TieFree(entries, cmp)
    ensures multiset(ToSortedMap(entries, cmp)) == multiset(entries)
  {
    if entries != [] {
      var n := |entries| - 1;
      var front, e := entries[..n], entries[n];
      ToSortedMapPermutation(front, cmp);
      ToSortedMapKeys(front, cmp);
      var sorted := ToSortedMap(front, cmp);
      forall j | 0 <= j < |sorted| ensures cmp(e.0, sorted[j].0) != 0 {
        assert sorted[j].0 in Keys(sorted);
        var i :| 0 <= i < |front| && Keys(front)[i] == sorted[j].0;
        assert entries[i].0 == sorted[j].0;
      }
      InsertWithoutTie(sorted, e.0, e.1, cmp);
      assert entries == front + [e];
    }
  }

  // ---------------------------------------------------------------- ranks

  /** How many entries have a key below `k`. */
  function CountBelow<K, V>(es: seq<(K, V)>, k: K, cmp: (K, K) -> int): (n: nat)
    ensures n <= |es|
  {
    if es == [] then 0
    else CountBelow(es[..|es| - 1], k, cmp) + (if cmp(es[|es| - 1].0, k) < 0 then 1 else 0)
  }

  lemma {:induction false} CountBelowAll<K, V>(es: seq<(K, V)>, k: K, cmp: (K, K) -> int)
    requires forall j :: 0 <= j < |es| ==> cmp(es[j].0, k) < 0
    ensures CountBelow(es, k, cmp) == |es|
  {
    if es != [] {
      CountBelowAll(es[..|es| - 1], k, cmp);
    }
  }

  /** In an ascending entry list an entry's index is the number of entries below it. */
  lemma {:induction false} SortedIndexIsRank<K, V>(es: seq<(K, V)>, cmp: (K, K) -> int, key: K -> int, i: nat)
    requires OrderedBy(cmp, key, Keys(es)) && StrictlySorted(es, cmp) && i < |es|
    ensures CountBelow(es, es[i].0, cmp) == i
  {
    var n := |es| - 1;
    var front := es[..n];
    assert es[i].0 in Keys(es) && es[n].0 in Keys(es);
    if i < n {
      OrderedByPart(cmp, key, Keys(es), Keys(front));
      assert front[i] == es[i];
      SortedIndexIsRank(front, cmp, key, i);
      assert cmp(es[i].0, es[n].0) < 0;
    } else {
      CountBelowAll(front, es[i].0, cmp);
      assert cmp(es[n].0, es[n].0) == 0;
    }
  }

  /** `keys.mapIndexed { i, k -> map[k] * (i + 1) }.sum()`: each value weighted by its 1-based position. */
  function WeightedSum<K>(es: seq<(K, int)>): int
  {
    if es == [] then 0 else WeightedSum(es[..|es| - 1]) + es[|es| - 1].1 * |es|
  }

  /**
   * `keys.mapIndexed { i, k -> map[k]!! * (i + 1) }.sum()`: the value each key has in `table`,
   * weighted by the key's 1-based position in `ks`.
   */
  function LookupWeightedSum<K(==)>(ks: seq<K>, table: seq<(K, int)>): int
    requires forall k :: k in ks ==> k in Keys(table)
  {
    if ks == [] then 0
    else
      assert forall k :: k in ks[..|ks| - 1] ==> k in ks;
      LookupWeightedSum(ks[..|ks| - 1], table) + Lookup(table, ks[|ks| - 1]) * |ks|
  }

  /** The keys of entries taken from a table are keys of the table. */
  lemma EntriesKeys<K, V>(es: seq<(K, V)>, table: seq<(K, V)>)
    requires forall e :: e in es ==> e in table
    ensures forall k :: k in Keys(es) ==> k in Keys(table)
  {
    forall k | k in Keys(es) ensures k in Keys(table) {
      var i :| 0 <= i < |es| && Keys(es)[i] == k;
      assert es[i] in table;
      var j :| 0 <= j < |table| && table[j] == es[i];
      assert Keys(table)[j] == k;
    }
  }

  /**
   * When every entry of `es` is an entry of a table whose keys occur once, looking the keys of `es`
   * up in the table weights each entry's own value.
   */
  lemma {:induction false} LookupWeightedSumOfEntries<K>(es: seq<(K, int)>, table: seq<(K, int)>)
    requires NoDuplicates(Keys(table)) && forall e :: e in es ==> e in table
    ensures forall k :: k in Keys(es) ==> k in Keys(table)
    ensures LookupWeightedSum(Keys(es), table) == WeightedSum(es)
  {
    EntriesKeys(es, table);
    if es != [] {
      var n := |es| - 1;
      assert Keys(es)[..n] == Keys(es[..n]);
      assert forall e :: e in es[..n] ==> e in es;
      LookupWeightedSumOfEntries(es[..n], table);
      assert es[n] in es;
      LookupUnique(table, es[n].0, es[n].1);
    }
  }

  /** A comparator ordered by an integer key ties equal keys, so keys that never tie are distinct. */
  lemma TieFreeKeysDistinct<K, V>(es: seq<(K, V)>, cmp: (K, K) -> int, key: K -> int)
    requires OrderedBy(cmp, key, Keys(es)) && TieFree(es, cmp)
    ensures NoDuplicates(Keys(es))
  {
    forall i, j | 0 <= i < j < |es| ensures Keys(es)[i] != Keys(es)[j] {
      assert Keys(es)[i] in Keys(es) && Keys(es)[j] in Keys(es);
      assert cmp(es[i].0, es[j].0) != 0;
    }
  }

  /**
   * `toSortedMap(cmp).keys.mapIndexed { i, k -> map[k]!! * (i + 1) }.sum()` when no two keys tie:
   * every key of the sorted map is found in the map, and each entry gets its value times its rank,
   * one plus the number of entries with a lower key.
   */
  lemma SortedMapLookupSum<K>(table: seq<(K, int)>, cmp: (K, K) -> int, key: K -> int)
    requires OrderedBy(cmp, key, Keys(table)) && TieFree(table, cmp)
    ensures forall k :: k in Keys(ToSortedMap(table, cmp)) ==> k in Keys(table)
    ensures LookupWeightedSum(Keys(ToSortedMap(table, cmp)), table) == RankedSum(table, table, cmp)
  {
    var sorted := ToSortedMap(table, cmp);
    ToSortedMapKeys(table, cmp);
    ToSortedMapPermutation(table, cmp);
    forall e | e in sorted ensures e in table {
      assert e in multiset(sorted);
    }
    TieFreeKeysDistinct(table, cmp, key);
    LookupWeightedSumOfEntries(sorted, table);
    SortedMapWeightedSum(table, cmp, key);
  }

  /**
   * Two keys that tie: the sorted map keeps the first key and takes the second value, yet the key
   * looked up in the map it was built from still has the first value, and that is what is weighted.
   */
  lemma TiedKeysUseFirstValue<K>(k1: K, v1: int, k2: K, v2: int, cmp: (K, K) -> int)
    requires k1 != k2 && cmp(k2, k1) == 0
    ensures ToSortedMap([(k1, v1), (k2, v2)], cmp) == [(k1, v2)]
    ensures Keys([(k1, v1), (k2, v2)])[0] == k1
    ensures LookupWeightedSum(Keys(ToSortedMap([(k1, v1), (k2, v2)], cmp)), [(k1, v1), (k2, v2)]) == v1
  {
    var table := [(k1, v1), (k2, v2)];
    assert table[..1] == [(k1, v1)] && table[..1][..0] == [];
    assert ToSortedMap(table[..1], cmp) == [(k1, v1)];
    assert Keys([(k1, v2)]) == [k1] && Keys(table) == [k1, k2];
    assert [k1][..0] == [];
  }

  function RankWeight<K>(ref: seq<(K, int)>, cmp: (K, K) -> int): ((K, int)) -> int
  {
    (e: (K, int)) => e.1 * (CountBelow(ref, e.0, cmp) + 1)
  }

  /** The entries of `xs`, each value weighted by its rank among `ref`: one plus the number of keys below. */
  function RankedSum<K>(xs: seq<(K, int)>, ref: seq<(K, int)>, cmp: (K, K) -> int): int
  {
    SumOf(xs, RankWeight(ref, cmp))
  }

  lemma {:induction false} WeightedPrefix<K>(es: seq<(K, int)>, cmp: (K, K) -> int, key: K -> int, m: nat)
    requires OrderedBy(cmp, key, Keys(es)) && StrictlySorted(es, cmp) && m <= |es|
    ensures WeightedSum(es[..m]) == RankedSum(es[..m], es, cmp)
  {
    if m > 0 {
      WeightedPrefix(es, cmp, key, m - 1);
      assert es[..m][..m - 1] == es[..m - 1];
      SortedIndexIsRank(es, cmp, key, m - 1);
    }
  }

  /** Over an ascending entry list the position-weighted sum is the rank-weighted sum. */
  lemma SortedWeightedSum<K>(es: seq<(K, int)>, cmp: (K, K) -> int, key: K -> int)
    requires OrderedBy(cmp, key, Keys(es)) && StrictlySorted(es, cmp)
    ensures WeightedSum(es) == RankedSum(es, es, cmp)
  {
    WeightedPrefix(es, cmp, key, |es|);
    assert es[..|es|] == es;
  }

  lemma {:induction false} CountBelowPermutation<K, V>(r1: seq<(K, V)>, r2: seq<(K, V)>, k: K, cmp: (K, K) -> int)
    requires multiset(r1) == multiset(r2)
    ensures CountBelow(r1, k, cmp) == CountBelow(r2, k, cmp)
  {
    var f := (e: (K, V)) => if cmp(e.0, k) < 0 then 1 else 0;
    CountBelowIsSum(r1, k, cmp, f);
    CountBelowIsSum(r2, k, cmp, f);
    SumOfPermutation(r1, r2, f);
  }

  lemma {:induction false} CountBelowIsSum<K, V>(es: seq<(K, V)>, k: K, cmp: (K, K) -> int, f: ((K, V)) -> int)
    requires forall e :: f(e) == if cmp(e.0, k) < 0 then 1 else 0
    ensures CountBelow(es, k, cmp) == SumOf(es, f)
  {
    if es != [] {
      CountBelowIsSum(es[..|es| - 1], k, cmp, f);
    }
  }

  lemma {:induction false} RankedSumSameRanks<K>(xs: seq<(K, int)>, r1: seq<(K, int)>, r2: seq<(K, int)>, cmp: (K, K) -> int)
    requires multiset(r1) == multiset(r2)
    ensures RankedSum(xs, r1, cmp) == RankedSum(xs, r2, cmp)
  {
    if xs != [] {
      RankedSumSameRanks(xs[..|xs| - 1], r1, r2, cmp);
      CountBelowPermutation(r1, r2, xs[|xs| - 1].0, cmp);
    }
  }

  /**
   * `toSortedMap` followed by the position-weighted sum gives every entry its value times its rank,
   * one plus the number of entries with a lower key, whatever order the entries came in.
   */
  lemma SortedMapWeightedSum<K>(entries: seq<(K, int)>, cmp: (K, K) -> int, key: K -> int)
    requires OrderedBy(cmp, key, Keys(entries)) && TieFree(entries, cmp)
    ensures WeightedSum(ToSortedMap(entries, cmp)) == RankedSum(entries, entries, cmp)
  {
    var sorted := ToSortedMap(entries, cmp);
    ToSortedMapSorted(entries, cmp, key);
    ToSortedMapKeys(entries, cmp);
    OrderedByPart(cmp, key, Keys(entries), Keys(sorted));
    SortedWeightedSum(sorted, cmp, key);
    ToSortedMapPermutation(entries, cmp);
    RankedSumSameRanks(sorted, sorted, entries, cmp);
    SumOfPermutation(sorted, entries, RankWeight(entries, cmp));
  }
}
