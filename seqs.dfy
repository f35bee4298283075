/** Counting, summing and de-duplicating sequences, as the Kotlin collection functions do. */
module Seqs {

  /** `s.count { it == x }`. */
  function Count<T(==)>(s: seq<T>, x: T): nat
  {
    if s == [] then 0 else Count(s[..|s| - 1], x) + (if s[|s| - 1] == x then 1 else 0)
  }

  /** The count of an element is its multiplicity in the multiset of the sequence. */
  lemma {:induction false} CountIsMultiplicity<T>(s: seq<T>, x: T)
    ensures Count(s, x) == multiset(s)[x]
  {
    if s != [] {
      CountIsMultiplicity(s[..|s| - 1], x);
      assert s == s[..|s| - 1] + [s[|s| - 1]];
    }
  }

  /** On a sequence without repetitions every element is counted once. */
  lemma CountInDistinct<T>(s: seq<T>, x: T)
    requires NoDuplicates(s)
    ensures Count(s, x) == if x in s then 1 else 0
  {
    CountIsMultiplicity(s, x);
    if x in s {
      var k :| 0 <= k < |s| && s[k] == x;
      assert s == s[..k] + [x] + s[k + 1..];
      assert x !in s[..k] && x !in s[k + 1..];
      assert multiset(s) == multiset(s[..k]) + multiset{x} + multiset(s[k + 1..]);
    }
  }

  /** `s.sum()`. */
  function Sum(s: seq<int>): int
  {
    if s == [] then 0 else Sum(s[..|s| - 1]) + s[|s| - 1]
  }

  lemma {:induction false} SumNonNegative(s: seq<int>)
    requires forall i :: 0 <= i < |s| ==> s[i] >= 0
    ensures Sum(s) >= 0
  {
    if s != [] {
      SumNonNegative(s[..|s| - 1]);
    }
  }

  lemma {:induction false} SumOfZeros(s: seq<int>)
    requires forall i :: 0 <= i < |s| ==> s[i] == 0
    ensures Sum(s) == 0
  {
    if s != [] {
      SumOfZeros(s[..|s| - 1]);
    }
  }

  /** Summing distributes over concatenation. */
  lemma {:induction false} SumAppend(s: seq<int>, t: seq<int>)
    ensures Sum(s + t) == Sum(s) + Sum(t)
    decreases |t|
  {
    if t != [] {
      assert (s + t)[..|s + t| - 1] == s + t[..|t| - 1];
      assert (s + t)[|s + t| - 1] == t[|t| - 1];
      SumAppend(s, t[..|t| - 1]);
    } else {
      assert s + t == s;
    }
  }

  predicate NoDuplicates<T(==)>(s: seq<T>) {
    forall i, j :: 0 <= i < j < |s| ==> s[i] != s[j]
  }

  /** `s.indexOf(x)` for an element that occurs: the position of its first occurrence. */
  function FirstIndex<T(==)>(s: seq<T>, x: T): (i: nat)
    requires x in s
    ensures i < |s| && s[i] == x && x !in s[..i]
  {
    if s[0] == x then 0
    else
      assert s == [s[0]] + s[1..];
      var j := FirstIndex(s[1..], x);
      assert s[..j + 1] == [s[0]] + s[1..][..j];
      j + 1
  }

  /** The first occurrence of an element of a prefix is the same in the whole sequence. */
  lemma FirstIndexPrefix<T>(s: seq<T>, n: nat, x: T)
    requires n <= |s| && x in s[..n]
    ensures FirstIndex(s, x) == FirstIndex(s[..n], x)
  {
    var j := FirstIndex(s[..n], x);
    assert s[..n][j] == s[j] && s[..n][..j] == s[..j];
    FirstIndexUnique(s, x, j);
  }

  /** A position holding `x` with no `x` before it is the first occurrence. */
  lemma FirstIndexUnique<T>(s: seq<T>, x: T, i: nat)
    requires i < |s| && s[i] == x && x !in s[..i]
    ensures FirstIndex(s, x) == i
  {
  }

  /**
   * `distinct()`: every element once, in order of first appearance: an element comes before
   * another exactly when it first occurs earlier.
   */
  function Distinct<T(==,!new)>(s: seq<T>): (d: seq<T>)
    ensures NoDuplicates(d)
    ensures forall x :: x in d <==> x in s
    ensures |d| <= |s|
    ensures forall i, j :: 0 <= i < j < |d| ==> FirstIndex(s, d[i]) < FirstIndex(s, d[j])
  {
    if s == [] then []
    else
      var n := |s| - 1;
      var r := Distinct(s[..n]);
      assert forall x :: x in s <==> x in s[..n] || x == s[n];
      assert forall i :: 0 <= i < |r| ==> FirstIndex(s, r[i]) == FirstIndex(s[..n], r[i]) by {
        forall i | 0 <= i < |r| ensures FirstIndex(s, r[i]) == FirstIndex(s[..n], r[i]) {
          FirstIndexPrefix(s, n, r[i]);
        }
      }
      if s[n] in r then r
      else
        assert FirstIndex(s, s[n]) == n by {
          assert s[..n] == s[..n];
        }
        r + [s[n]]
  }

  /** `s.sumOf(f)`. */
  function SumOf<T>(s: seq<T>, f: T -> int): int
  {
    if s == [] then 0 else SumOf(s[..|s| - 1], f) + f(s[|s| - 1])
  }

  lemma {:induction false} SumOfAppend<T>(s: seq<T>, t: seq<T>, f: T -> int)
    ensures SumOf(s + t, f) == SumOf(s, f) + SumOf(t, f)
    decreases |t|
  {
    if t != [] {
      assert (s + t)[..|s + t| - 1] == s + t[..|t| - 1];
      assert (s + t)[|s + t| - 1] == t[|t| - 1];
      SumOfAppend(s, t[..|t| - 1], f);
    } else {
      assert s + t == s;
    }
  }

  /** A sum over a sequence does not depend on the order of its elements. */
  lemma {:induction false} SumOfPermutation<T>(s: seq<T>, t: seq<T>, f: T -> int)
    requires multiset(s) == multiset(t)
    ensures SumOf(s, f) == SumOf(t, f)
    decreases |s|
  {
    if s == [] {
      assert |t| == |multiset(t)|;
    } else {
      var n := |s| - 1;
      var x := s[n];
      assert s == s[..n] + [x];
      assert x in multiset(t);
      var k :| 0 <= k < |t| && t[k] == x;
      assert t == t[..k] + [x] + t[k + 1..];
      calc {
        multiset(s[..n]);
        multiset(s) - multiset{x};
        multiset(t) - multiset{x};
        multiset(t[..k]) + multiset{x} + multiset(t[k + 1..]) - multiset{x};
        multiset(t[..k] + t[k + 1..]);
      }
      SumOfPermutation(s[..n], t[..k] + t[k + 1..], f);
      SumOfAppend(t[..k], t[k + 1..], f);
      SumOfAppend(t[..k] + [x], t[k + 1..], f);
      SumOfAppend(t[..k], [x], f);
      SumOfAppend(s[..n], [x], f);
      assert SumOf([x], f) == f(x) by {
        assert [x][..0] == [];
      }
    }
  }

  // ---------------------------------------------------------------- maps in insertion order

  /** The keys of a list of map entries. */
  function Keys<K, V>(es: seq<(K, V)>): (ks: seq<K>)
    ensures |ks| == |es|
    ensures forall i :: 0 <= i < |es| ==> ks[i] == es[i].0
  {
    seq(|es|, i requires 0 <= i < |es| => es[i].0)
  }

  lemma KeysCons<K, V>(e: (K, V), es: seq<(K, V)>)
    ensures Keys([e] + es) == [e.0] + Keys(es)
  {
  }

  lemma KeysAppend<K, V>(a: seq<(K, V)>, b: seq<(K, V)>)
    ensures Keys(a + b) == Keys(a) + Keys(b)
  {
  }

  /** `LinkedHashMap.put`: a present key gets the new value in its old place, a new key goes last. */
  function Put<K(==), V>(es: seq<(K, V)>, k: K, v: V): (r: seq<(K, V)>)
  {
    if es == [] then [(k, v)]
    else if es[0].0 == k then [(k, v)] + es[1..]
    else [es[0]] + Put(es[1..], k, v)
  }

  /** A present key keeps the length; a new key goes last. */
  lemma {:induction false} PutShape<K, V>(es: seq<(K, V)>, k: K, v: V)
    ensures k in Keys(es) ==> |Put(es, k, v)| == |es|
    ensures k !in Keys(es) ==> Put(es, k, v) == es + [(k, v)]
  {
    if es != [] && es[0].0 != k {
      assert Keys(es) == [es[0].0] + Keys(es[1..]);
      PutShape(es[1..], k, v);
    }
  }

  lemma {:induction false} PutReplaces<K, V>(es: seq<(K, V)>, k: K, v: V, j: nat)
    requires NoDuplicates(Keys(es)) && j < |es| && es[j].0 == k
    ensures Put(es, k, v) == es[j := (k, v)]
  {
    if j > 0 {
      assert Keys(es)[0] != Keys(es)[j];
      assert es[1..][j - 1] == es[j];
      assert Keys(es[1..]) == Keys(es)[1..];
      PutReplaces(es[1..], k, v, j - 1);
    }
  }

  /** `map[k]!!` on entries that hold the key: the value of its (first) entry. */
  function Lookup<K(==), V>(es: seq<(K, V)>, k: K): (v: V)
    requires k in Keys(es)
    ensures (k, v) in es
  {
    if es[0].0 == k then es[0].1
    else
      assert Keys(es) == [es[0].0] + Keys(es[1..]);
      Lookup(es[1..], k)
  }

  /** When every key occurs once, the value found is the one the key's entry holds. */
  lemma {:induction false} LookupUnique<K, V>(es: seq<(K, V)>, k: K, v: V)
    requires NoDuplicates(Keys(es)) && (k, v) in es
    ensures Lookup(es, k) == v
  {
    var i :| 0 <= i < |es| && es[i] == (k, v);
    assert Keys(es)[i] == k;
    if es[0].0 != k {
      assert i > 0 && es[1..][i - 1] == (k, v);
      assert Keys(es[1..]) == Keys(es)[1..];
      LookupUnique(es[1..], k, v);
    } else {
      assert Keys(es)[0] == k;
    }
  }

  /**
   * `associate`: one `put` per pair, in order. The keys come out once each in order of first
   * appearance, and every key keeps the value of its last pair.
   */
  function Associate<K(==), V>(pairs: seq<(K, V)>): (r: seq<(K, V)>)
  {
    if pairs == [] then []
    else
      var last := pairs[|pairs| - 1];
      Put(Associate(pairs[..|pairs| - 1]), last.0, last.1)
  }

  /** The keys of `associate` are the distinct keys of the pairs, in order of first appearance. */
  lemma {:induction false} AssociateKeys<K(!new), V>(pairs: seq<(K, V)>)
    ensures Keys(Associate(pairs)) == Distinct(Keys(pairs))
  {
    if pairs != [] {
      var n := |pairs| - 1;
      var front := pairs[..n];
      AssociateKeys(front);
      assert Keys(pairs)[..n] == Keys(front);
      var es := Associate(front);
      if pairs[n].0 in Keys(es) {
        var j :| 0 <= j < |es| && Keys(es)[j] == pairs[n].0;
        PutReplaces(es, pairs[n].0, pairs[n].1, j);
        assert Keys(Associate(pairs)) == Keys(es);
      } else {
        PutShape(es, pairs[n].0, pairs[n].1);
        KeysAppend(es, [pairs[n]]);
      }
    }
  }

  /** `put` keeps the entries of the other keys and holds the new value. */
  lemma {:induction false} PutKeepsOthers<K, V>(es: seq<(K, V)>, k: K, v: V)
    ensures (k, v) in Put(es, k, v)
    ensures forall e :: e in es && e.0 != k ==> e in Put(es, k, v)
  {
    if es != [] && es[0].0 != k {
      PutKeepsOthers(es[1..], k, v);
      assert forall e :: e in es ==> e == es[0] || e in es[1..];
    }
  }

  /** Every pair that is the last one with its key is an entry of `associate`. */
  lemma {:induction false} AssociateLastWins<K, V>(pairs: seq<(K, V)>, i: nat)
    requires i < |pairs|
    requires forall j :: i < j < |pairs| ==> pairs[j].0 != pairs[i].0
    ensures pairs[i] in Associate(pairs)
  {
    var n := |pairs| - 1;
    var front := pairs[..n];
    if i < n {
      assert pairs[i] in Associate(front) by {
        assert front[i] == pairs[i];
        assert forall j :: i < j < |front| ==> front[j] == pairs[j];
        AssociateLastWins(front, i);
      }
      PutKeepsEntry(Associate(front), pairs[n].0, pairs[n].1, pairs[i]);
    } else {
      PutKeepsOthers(Associate(front), pairs[n].0, pairs[n].1);
    }
  }

  /** One entry of another key survives a `put`. */
  lemma PutKeepsEntry<K, V>(es: seq<(K, V)>, k: K, v: V, e: (K, V))
    requires e in es && e.0 != k
    ensures e in Put(es, k, v)
  {
    PutKeepsOthers(es, k, v);
  }

  /** A subset is no larger than its superset. */
  lemma SubsetCard<T>(a: set<T>, b: set<T>)
    requires a <= b
    ensures |a| <= |b|
    decreases a
  {
    if a != {} {
      var x :| x in a;
      SubsetCard(a - {x}, b - {x});
    }
  }
}
