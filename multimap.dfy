/** An ordered multimap (std::multimap with integer keys), represented by the
    sequence of its entries in iteration order. Both the communicator's inbox
    (keyed by delivery time) and each callback bucket (keyed by priority) are
    such multimaps. */
module MultiMap {

  /** Iteration order of a multimap: keys never decrease. */
  ghost predicate Sorted<V>(s: seq<(int, V)>)
  {
    forall i, j :: 0 <= i < j < |s| ==> s[i].0 <= s[j].0
  }

  /** Position of the first entry whose key is greater than `k`
      (std::multimap::upper_bound). */
  function UpperBound<V>(s: seq<(int, V)>, k: int): (n: nat)
    ensures n <= |s|
  {
    if s == [] || k < s[0].0 then 0 else 1 + UpperBound(s[1..], k)
  }

  /** Every entry before the upper bound has a key at most `k`, and the entry
      at the upper bound, if any, has a larger key. */
  lemma {:induction false} UpperBoundIsFirstLarger<V>(s: seq<(int, V)>, k: int)
    ensures forall i :: 0 <= i < UpperBound(s, k) ==> s[i].0 <= k
    ensures UpperBound(s, k) < |s| ==> k < s[UpperBound(s, k)].0
    decreases |s|
  {
    if s != [] && s[0].0 <= k {
      UpperBoundIsFirstLarger(s[1..], k);
      forall i | 0 < i < UpperBound(s, k)
        ensures s[i].0 <= k
      {
        assert s[i] == s[1..][i - 1];
      }
    }
  }

  /** In a sorted multimap, everything from the upper bound on has a larger key. */
  lemma UpperBoundSplits<V>(s: seq<(int, V)>, k: int)
    requires Sorted(s)
    ensures forall i :: 0 <= i < UpperBound(s, k) ==> s[i].0 <= k
    ensures forall i :: UpperBound(s, k) <= i < |s| ==> k < s[i].0
  {
    UpperBoundIsFirstLarger(s, k);
    var n := UpperBound(s, k);
    forall i | n < i < |s|
      ensures k < s[i].0
    {
      assert s[n].0 <= s[i].0;
    }
  }

  /** std::multimap::insert: the new entry is placed after every entry whose
      key is not greater than its own, so entries with equal keys stay in
      insertion order. */
  function Insert<V>(s: seq<(int, V)>, k: int, v: V): (r: seq<(int, V)>)
    ensures |r| == |s| + 1
  {
    var n := UpperBound(s, k);
    s[..n] + [(k, v)] + s[n..]
  }

  /** The entries of the multimap after an insert, position by position. */
  lemma InsertAt<V>(s: seq<(int, V)>, k: int, v: V)
    ensures Insert(s, k, v)[UpperBound(s, k)] == (k, v)
    ensures forall i :: 0 <= i < UpperBound(s, k) ==> Insert(s, k, v)[i] == s[i]
    ensures forall i :: UpperBound(s, k) < i <= |s| ==> Insert(s, k, v)[i] == s[i - 1]
  {
  }

  /** A key not smaller than every key present goes to the end. */
  lemma InsertAfterAll<V>(s: seq<(int, V)>, k: int, v: V)
    requires forall i :: 0 <= i < |s| ==> s[i].0 <= k
    ensures Insert(s, k, v) == s + [(k, v)]
  {
    UpperBoundIsFirstLarger(s, k);
    assert UpperBound(s, k) == |s|;
    assert s[..|s|] == s && s[|s|..] == [];
  }

  /** A key smaller than every key present goes to the front. */
  lemma InsertBeforeAll<V>(s: seq<(int, V)>, k: int, v: V)
    requires forall i :: 0 <= i < |s| ==> k < s[i].0
    ensures Insert(s, k, v) == [(k, v)] + s
  {
    assert UpperBound(s, k) == 0;
    assert s[..0] == [] && s[0..] == s;
  }

  /** Inserting keeps a multimap in iteration order. */
  lemma InsertSorted<V>(s: seq<(int, V)>, k: int, v: V)
    requires Sorted(s)
    ensures Sorted(Insert(s, k, v))
  {
    var n, r := UpperBound(s, k), Insert(s, k, v);
    UpperBoundSplits(s, k);
    InsertAt(s, k, v);
    forall i, j | 0 <= i < j < |r|
      ensures r[i].0 <= r[j].0
    {
      if j < n {
        assert r[i] == s[i] && r[j] == s[j];
      } else if j == n {
        assert r[i] == s[i];
      } else if i < n {
        assert r[i] == s[i] && r[j] == s[j - 1];
      } else if i > n {
        assert r[i] == s[i - 1] && r[j] == s[j - 1];
      }
    }
  }

  /** The inserted entry follows every existing entry with the same key and
      precedes every entry with a larger key; removing it gives back the old
      multimap, so existing entries keep their relative order. */
  lemma InsertAfterEqualKeys<V>(s: seq<(int, V)>, k: int, v: V)
    requires Sorted(s)
    ensures forall i :: 0 <= i < |s| && s[i].0 == k ==> i < UpperBound(s, k)
    ensures forall i :: UpperBound(s, k) <= i < |s| ==> k < s[i].0
    ensures Insert(s, k, v)[..UpperBound(s, k)] + Insert(s, k, v)[UpperBound(s, k) + 1..] == s
  {
    UpperBoundSplits(s, k);
    InsertRemove(s, k, v);
  }

  /** Removing the entry an insert placed gives back the old multimap. */
  lemma InsertRemove<V>(s: seq<(int, V)>, k: int, v: V)
    ensures Insert(s, k, v)[..UpperBound(s, k)] + Insert(s, k, v)[UpperBound(s, k) + 1..] == s
  {
    var n := UpperBound(s, k);
    var a, b := s[..n], s[n..];
    var r := Insert(s, k, v);
    assert r == a + [(k, v)] + b;
    assert r[..n] == a;
    assert r[n + 1..] == b;
    assert a + b == s;
  }

  /** An insert adds exactly the one new entry and loses none. */
  lemma InsertMultiset<V>(s: seq<(int, V)>, k: int, v: V)
    ensures multiset(Insert(s, k, v)) == multiset(s) + multiset{(k, v)}
  {
    var n := UpperBound(s, k);
    var a, b := s[..n], s[n..];
    assert s == a + b;
    SpliceMultiset(a, (k, v), b);
  }

  lemma SpliceMultiset<T>(a: seq<T>, x: T, b: seq<T>)
    ensures multiset(a + [x] + b) == multiset(a + b) + multiset{x}
  {
  }

  /** The values of the entries, in iteration order (the mapped values an
      iteration over the multimap visits). */
  function Values<V>(s: seq<(int, V)>): (vs: seq<V>)
    ensures |vs| == |s|
    ensures forall i :: 0 <= i < |s| ==> vs[i] == s[i].1
  {
    seq(|s|, i requires 0 <= i < |s| => s[i].1)
  }

  /** Iterating one entry further visits one more value. */
  lemma ValuesPrefixStep<V>(s: seq<(int, V)>, i: nat)
    requires i < |s|
    ensures Values(s[..i + 1]) == Values(s[..i]) + [s[i].1]
  {
  }

  /** The entries with key `k`, in iteration order (std::multimap::equal_range). */
  function WithKey<V>(s: seq<(int, V)>, k: int): (r: seq<(int, V)>)
    ensures |r| <= |s|
    ensures forall i :: 0 <= i < |r| ==> r[i].0 == k
  {
    if s == [] then [] else (if s[0].0 == k then [s[0]] else []) + WithKey(s[1..], k)
  }

  lemma {:induction false} WithKeyConcat<V>(a: seq<(int, V)>, b: seq<(int, V)>, k: int)
    ensures WithKey(a + b, k) == WithKey(a, k) + WithKey(b, k)
    decreases |a|
  {
    if a != [] {
      var p := if a[0].0 == k then [a[0]] else [];
      assert (a + b)[0] == a[0];
      assert (a + b)[1..] == a[1..] + b;
      WithKeyConcat(a[1..], b, k);
      assert WithKey(a, k) == p + WithKey(a[1..], k);
      calc {
        WithKey(a + b, k);
        p + WithKey(a[1..] + b, k);
        p + (WithKey(a[1..], k) + WithKey(b, k));
        (p + WithKey(a[1..], k)) + WithKey(b, k);
        WithKey(a, k) + WithKey(b, k);
      }
    } else {
      assert a + b == b;
    }
  }

  lemma {:induction false} WithKeyAbsent<V>(s: seq<(int, V)>, k: int)
    ensures (forall i :: 0 <= i < |s| ==> s[i].0 != k) ==> WithKey(s, k) == []
    decreases |s|
  {
    if s != [] {
      WithKeyAbsent(s[1..], k);
    }
  }

  /** Stability: inserting with key `k2` appends to the equal range of `k2`
      and leaves every other equal range as it was. */
  lemma InsertWithKey<V>(s: seq<(int, V)>, k2: int, v: V, k: int)
    requires Sorted(s)
    ensures WithKey(Insert(s, k2, v), k) == WithKey(s, k) + (if k2 == k then [(k2, v)] else [])
  {
    var n := UpperBound(s, k2);
    var wa, wb := WithKey(s[..n], k), WithKey(s[n..], k);
    var p := if k2 == k then [(k2, v)] else [];
    assert WithKey(Insert(s, k2, v), k) == wa + p + wb && WithKey(s, k) == wa + wb by {
      InsertWithKeyParts(s, k2, v, k);
    }
    if k2 == k {
      assert wb == [] by {
        WithKeyPastUpperBound(s, k);
      }
    }
    assert wa + p + wb == (wa + wb) + p;
  }

  /** The equal ranges before and after an insert, split at the position the
      new entry takes. */
  lemma InsertWithKeyParts<V>(s: seq<(int, V)>, k2: int, v: V, k: int)
    ensures WithKey(Insert(s, k2, v), k)
         == WithKey(s[..UpperBound(s, k2)], k) + (if k2 == k then [(k2, v)] else []) + WithKey(s[UpperBound(s, k2)..], k)
    ensures WithKey(s, k) == WithKey(s[..UpperBound(s, k2)], k) + WithKey(s[UpperBound(s, k2)..], k)
  {
    var n := UpperBound(s, k2);
    var a, b := s[..n], s[n..];
    assert Insert(s, k2, v) == a + [(k2, v)] + b;
    SpliceWithKey(a, (k2, v), b, k);
    assert s == a + b;
    WithKeyConcat(a, b, k);
  }

  /** In a sorted multimap, no entry from the upper bound of `k` on has key `k`. */
  lemma WithKeyPastUpperBound<V>(s: seq<(int, V)>, k: int)
    requires Sorted(s)
    ensures WithKey(s[UpperBound(s, k)..], k) == []
  {
    var n := UpperBound(s, k);
    var b := s[n..];
    UpperBoundSplits(s, k);
    forall i | 0 <= i < |b|
      ensures b[i].0 != k
    {
      assert b[i] == s[n + i];
    }
    WithKeyAbsent(b, k);
  }

  lemma SpliceWithKey<V>(a: seq<(int, V)>, x: (int, V), b: seq<(int, V)>, k: int)
    ensures WithKey(a + [x] + b, k) == WithKey(a, k) + (if x.0 == k then [x] else []) + WithKey(b, k)
  {
    WithKeyConcat(a + [x], b, k);
    WithKeyConcat(a, [x], k);
    assert WithKey([x], k) == (if x.0 == k then [x] else []) + WithKey([x][1..], k);
  }

  /** The multimap obtained by inserting `entries` one after the other into an
      empty multimap. */
  function InsertAll<V>(entries: seq<(int, V)>): (r: seq<(int, V)>)
    ensures |r| == |entries|
  {
    if entries == [] then []
    else
      var last := entries[|entries| - 1];
      Insert(InsertAll(entries[..|entries| - 1]), last.0, last.1)
  }

  /** Inserting in any order yields a multimap in key order whose equal ranges
      list the entries in the order they were inserted. */
  lemma {:induction false} InsertAllStable<V>(entries: seq<(int, V)>, k: int)
    ensures Sorted(InsertAll(entries))
    ensures WithKey(InsertAll(entries), k) == WithKey(entries, k)
    decreases |entries|
  {
    if entries != [] {
      var n := |entries| - 1;
      var init, last := entries[..n], entries[n];
      var b := InsertAll(init);
      var p := if last.0 == k then [last] else [];
      assert InsertAll(entries) == Insert(b, last.0, last.1);
      InsertAllStable(init, k);
      assert Sorted(InsertAll(entries)) by {
        InsertSorted(b, last.0, last.1);
      }
      assert WithKey(InsertAll(entries), k) == WithKey(b, k) + p by {
        InsertWithKey(b, last.0, last.1, k);
      }
      assert WithKey(entries, k) == WithKey(init, k) + p by {
        assert entries == init + [last];
        WithKeyConcat(init, [last], k);
        assert WithKey([last], k) == p + WithKey([last][1..], k);
      }
    }
  }

  lemma WithKeyNonEmpty<V>(s: seq<(int, V)>)
    ensures s != [] ==> WithKey(s, s[0].0) != [] && WithKey(s, s[0].0)[0] == s[0]
  {
  }

  /** A sorted multimap is determined by its equal ranges. */
  lemma {:induction false} SortedDeterminedByEqualRanges<V>(a: seq<(int, V)>, b: seq<(int, V)>)
    requires Sorted(a) && Sorted(b)
    requires forall k :: WithKey(a, k) == WithKey(b, k)
    ensures a == b
    decreases |a|
  {
    if a != [] || b != [] {
      SameFirstEntry(a, b);
      SameRangesOfRest(a, b);
      SortedDeterminedByEqualRanges(a[1..], b[1..]);
      assert a == [a[0]] + a[1..];
      assert b == [b[0]] + b[1..];
    }
  }

  /** Two sorted multimaps with the same equal ranges, not both empty, start
      with the same entry. */
  lemma SameFirstEntry<V>(a: seq<(int, V)>, b: seq<(int, V)>)
    requires Sorted(a) && Sorted(b)
    requires forall k :: WithKey(a, k) == WithKey(b, k)
    requires a != [] || b != []
    ensures a != [] && b != [] && a[0] == b[0]
  {
    WithKeyNonEmpty(a);
    WithKeyNonEmpty(b);
    if a != [] && b != [] {
      var ka, kb := a[0].0, b[0].0;
      if ka < kb {
        WithKeyBelowFirst(b, ka);
      } else if kb < ka {
        WithKeyBelowFirst(a, kb);
      }
    }
  }

  /** A sorted multimap has no entry with a key below its first one. */
  lemma WithKeyBelowFirst<V>(s: seq<(int, V)>, k: int)
    requires Sorted(s) && s != [] && k < s[0].0
    ensures WithKey(s, k) == []
  {
    forall i | 0 <= i < |s|
      ensures s[i].0 != k
    {
      if i > 0 {
        assert s[0].0 <= s[i].0;
      }
    }
    WithKeyAbsent(s, k);
  }

  /** Dropping the same first entry keeps the equal ranges equal, and keeps
      both multimaps sorted. */
  lemma SameRangesOfRest<V>(a: seq<(int, V)>, b: seq<(int, V)>)
    requires Sorted(a) && Sorted(b)
    requires forall k :: WithKey(a, k) == WithKey(b, k)
    requires a != [] && b != [] && a[0] == b[0]
    ensures Sorted(a[1..]) && Sorted(b[1..])
    ensures forall k :: WithKey(a[1..], k) == WithKey(b[1..], k)
  {
    forall k
      ensures WithKey(a[1..], k) == WithKey(b[1..], k)
    {
      var p := if a[0].0 == k then [a[0]] else [];
      assert WithKey(a, k) == p + WithKey(a[1..], k);
      assert WithKey(b, k) == p + WithKey(b[1..], k);
      assert WithKey(a[1..], k) == WithKey(a, k)[|p|..];
      assert WithKey(b[1..], k) == WithKey(b, k)[|p|..];
    }
  }

  /** The resulting multimap depends only on the order in which entries with
      the same key were inserted, not on how inserts of different keys
      interleave. */
  lemma InsertAllDependsOnlyOnEqualRanges<V>(e1: seq<(int, V)>, e2: seq<(int, V)>)
    requires forall k :: WithKey(e1, k) == WithKey(e2, k)
    ensures InsertAll(e1) == InsertAll(e2)
  {
    forall k
      ensures WithKey(InsertAll(e1), k) == WithKey(InsertAll(e2), k)
    {
      InsertAllStable(e1, k);
      InsertAllStable(e2, k);
    }
    InsertAllStable(e1, 0);
    InsertAllStable(e2, 0);
    SortedDeterminedByEqualRanges(InsertAll(e1), InsertAll(e2));
  }

  /** No two entries share a key. */
  ghost predicate DistinctKeys<V>(s: seq<(int, V)>)
  {
    forall i, j :: 0 <= i < j < |s| ==> s[i].0 != s[j].0
  }

  /** The equal range of `k` holds exactly the entries of key `k`. */
  lemma {:induction false} WithKeyMultiset<V>(s: seq<(int, V)>, k: int, x: (int, V))
    ensures multiset(WithKey(s, k))[x] == if x.0 == k then multiset(s)[x] else 0
    decreases |s|
  {
    if s != [] {
      WithKeyMultiset(s[1..], k, x);
      assert s == [s[0]] + s[1..];
    }
  }

  lemma {:induction false} DistinctKeysWithKey<V>(s: seq<(int, V)>, k: int)
    requires DistinctKeys(s)
    ensures |WithKey(s, k)| <= 1
    decreases |s|
  {
    if s != [] {
      if s[0].0 == k {
        WithKeyAbsent(s[1..], k);
      } else {
        DistinctKeysWithKey(s[1..], k);
      }
    }
  }

  /** With distinct keys, the order of insertion does not matter at all. */
  lemma InsertAllDistinctKeys<V>(e1: seq<(int, V)>, e2: seq<(int, V)>)
    requires multiset(e1) == multiset(e2)
    requires DistinctKeys(e1) && DistinctKeys(e2)
    ensures InsertAll(e1) == InsertAll(e2)
  {
    forall k
      ensures WithKey(e1, k) == WithKey(e2, k)
    {
      DistinctKeysSameRange(e1, e2, k);
    }
    InsertAllDependsOnlyOnEqualRanges(e1, e2);
  }

  /** Two multimaps with the same entries and no repeated key have the same
      equal range for every key. */
  lemma DistinctKeysSameRange<V>(e1: seq<(int, V)>, e2: seq<(int, V)>, k: int)
    requires multiset(e1) == multiset(e2)
    requires DistinctKeys(e1) && DistinctKeys(e2)
    ensures WithKey(e1, k) == WithKey(e2, k)
  {
    var w1, w2 := WithKey(e1, k), WithKey(e2, k);
    DistinctKeysWithKey(e1, k);
    DistinctKeysWithKey(e2, k);
    if w1 != [] {
      RangeMember(e1, e2, k, w1[0]);
    }
    if w2 != [] {
      RangeMember(e2, e1, k, w2[0]);
    }
  }

  /** Equal ranges are drawn from the entries alone, whatever their order. */
  lemma RangeMember<V>(e1: seq<(int, V)>, e2: seq<(int, V)>, k: int, x: (int, V))
    requires multiset(e1) == multiset(e2)
    requires x in WithKey(e1, k)
    ensures x in WithKey(e2, k)
  {
    WithKeyMultiset(e1, k, x);
    WithKeyMultiset(e2, k, x);
    assert x in multiset(WithKey(e1, k));
  }

  /** Two entries sharing a key both belong to that key's equal range. */
  lemma {:induction false} WithKeyHasBoth<V>(s: seq<(int, V)>, i: nat, j: nat)
    requires i < j < |s| && s[i].0 == s[j].0
    ensures |WithKey(s, s[i].0)| >= 2
    decreases |s|
  {
    if i > 0 {
      WithKeyHasBoth(s[1..], i - 1, j - 1);
    } else {
      WithKeyAtLeastOne(s[1..], j - 1, s[i].0);
    }
  }

  lemma {:induction false} WithKeyAtLeastOne<V>(s: seq<(int, V)>, j: nat, k: int)
    requires j < |s| && s[j].0 == k
    ensures |WithKey(s, k)| >= 1
    decreases |s|
  {
    if j > 0 {
      WithKeyAtLeastOne(s[1..], j - 1, k);
    }
  }
}
