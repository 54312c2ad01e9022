/**
 * The stable sort of the header entries by nanosecond key (`toSorted` with the
 * comparator `a.endTimeNanos - b.endTimeNanos`; ECMAScript requires
 * `toSorted` to be stable).
 *
 * Stability is stated per key: for every key, the entries carrying it appear
 * in the output in exactly the order they had in the input.
 */
module EntrySort {
  import opened Entries

  /** Keys never decrease. */
  predicate Sorted(s: seq<Entry>)
  {
    forall i, j :: 0 <= i < j < |s| ==> s[i].key <= s[j].key
  }

  /** The entries of `s` whose key is `k`, in their order in `s`. */
  function WithKey(s: seq<Entry>, k: int): seq<Entry>
  {
    if |s| == 0 then []
    else (if s[0].key == k then [s[0]] else []) + WithKey(s[1..], k)
  }

  /**
   * Inserts `e` in front of the first entry whose key is not smaller, so `e`
   * precedes every entry of equal key.
   */
  function Insert(e: Entry, s: seq<Entry>): (r: seq<Entry>)
    ensures |r| == |s| + 1
    ensures r[0] == e || (|s| > 0 && r[0] == s[0])
  {
    if |s| == 0 || e.key <= s[0].key then [e] + s
    else [s[0]] + Insert(e, s[1..])
  }

  /** Insertion adds exactly `e`. */
  lemma {:induction false} InsertMultiset(e: Entry, s: seq<Entry>)
    ensures multiset(Insert(e, s)) == multiset(s) + multiset{e}
  {
    if |s| > 0 && s[0].key < e.key {
      InsertMultiset(e, s[1..]);
      assert s == [s[0]] + s[1..];
    }
  }

  /** Every key of `s` is at least `k`. */
  predicate AllAtLeast(k: int, s: seq<Entry>)
  {
    forall i :: 0 <= i < |s| ==> k <= s[i].key
  }

  /** A sorted tail headed by an entry no larger than all of it is sorted. */
  lemma SortedCons(h: Entry, t: seq<Entry>)
    requires Sorted(t) && AllAtLeast(h.key, t)
    ensures Sorted([h] + t)
  {
    var r := [h] + t;
    forall i, j | 0 <= i < j < |r|
      ensures r[i].key <= r[j].key
    {
      assert r[j] == t[j - 1];
      if i > 0 {
        assert r[i] == t[i - 1];
      }
    }
  }

  /** Inserting an entry of key at least `k` keeps every key at least `k`. */
  lemma {:induction false} InsertAtLeast(e: Entry, s: seq<Entry>, k: int)
    requires k <= e.key && AllAtLeast(k, s)
    ensures AllAtLeast(k, Insert(e, s))
  {
    if |s| > 0 && s[0].key < e.key {
      InsertAtLeast(e, s[1..], k);
      var r := Insert(e, s);
      assert r == [s[0]] + Insert(e, s[1..]);
      forall i | 0 <= i < |r|
        ensures k <= r[i].key
      {
        if i > 0 {
          assert r[i] == Insert(e, s[1..])[i - 1];
        }
      }
    }
  }

  /** Insertion into a sorted sequence keeps it sorted. */
  lemma {:induction false} InsertSorted(e: Entry, s: seq<Entry>)
    requires Sorted(s)
    ensures Sorted(Insert(e, s))
  {
    if |s| == 0 || e.key <= s[0].key {
      assert AllAtLeast(e.key, s);
      SortedCons(e, s);
    } else {
      var rest := s[1..];
      assert Sorted(rest);
      assert AllAtLeast(s[0].key, rest);
      InsertSorted(e, rest);
      InsertAtLeast(e, rest, s[0].key);
      SortedCons(s[0], Insert(e, rest));
    }
  }

  /** Insertion sort from the back, inserting each entry before the sorted rest. */
  function SortByKey(s: seq<Entry>): (r: seq<Entry>)
    ensures |r| == |s|
  {
    if |s| == 0 then [] else Insert(s[0], SortByKey(s[1..]))
  }

  /** The sort's output is sorted. */
  lemma {:induction false} SortSorts(s: seq<Entry>)
    ensures Sorted(SortByKey(s))
  {
    if |s| > 0 {
      SortSorts(s[1..]);
      InsertSorted(s[0], SortByKey(s[1..]));
    }
  }

  /** The sort's output is a permutation of its input. */
  lemma {:induction false} SortPermutes(s: seq<Entry>)
    ensures multiset(SortByKey(s)) == multiset(s)
  {
    if |s| > 0 {
      SortPermutes(s[1..]);
      InsertMultiset(s[0], SortByKey(s[1..]));
      assert s == [s[0]] + s[1..];
    }
  }

  /** The sort's output is sorted and a permutation of its input. */
  lemma SortSortsAndPermutes(s: seq<Entry>)
    ensures Sorted(SortByKey(s))
    ensures multiset(SortByKey(s)) == multiset(s)
  {
    SortSorts(s);
    SortPermutes(s);
  }

  /** The entries kept are exactly the members of `s` with key `k`. */
  lemma {:induction false} WithKeyMembers(s: seq<Entry>, k: int, x: Entry)
    ensures x in WithKey(s, k) <==> x in s && x.key == k
  {
    if |s| > 0 {
      WithKeyMembers(s[1..], k, x);
      assert s == [s[0]] + s[1..];
    }
  }

  /** Filtering a sequence with a known head. */
  lemma WithKeyCons(h: Entry, t: seq<Entry>, k: int)
    ensures WithKey([h] + t, k) == (if h.key == k then [h] else []) + WithKey(t, k)
  {
    assert ([h] + t)[1..] == t;
  }

  /** Filtering by key distributes over concatenation. */
  lemma {:induction false} WithKeyAppend(a: seq<Entry>, b: seq<Entry>, k: int)
    ensures WithKey(a + b, k) == WithKey(a, k) + WithKey(b, k)
  {
    if |a| == 0 {
      assert a + b == b;
    } else {
      var h := if a[0].key == k then [a[0]] else [];
      var t := a[1..];
      assert a == [a[0]] + t;
      calc {
        WithKey(a + b, k);
        { assert a + b == [a[0]] + (t + b); }
        WithKey([a[0]] + (t + b), k);
        { WithKeyCons(a[0], t + b, k); }
        h + WithKey(t + b, k);
        { WithKeyAppend(t, b, k); }
        h + (WithKey(t, k) + WithKey(b, k));
        (h + WithKey(t, k)) + WithKey(b, k);
        { WithKeyCons(a[0], t, k); }
        WithKey(a, k) + WithKey(b, k);
      }
    }
  }

  /** Insertion puts `e` first among the entries of its key. */
  lemma {:induction false} InsertWithKey(e: Entry, s: seq<Entry>, k: int)
    ensures WithKey(Insert(e, s), k) == (if e.key == k then [e] else []) + WithKey(s, k)
  {
    if |s| == 0 || e.key <= s[0].key {
      WithKeyCons(e, s, k);
    } else {
      var mine := if e.key == k then [e] else [];
      var head := if s[0].key == k then [s[0]] else [];
      InsertWithKey(e, s[1..], k);
      WithKeyCons(s[0], Insert(e, s[1..]), k);
      WithKeyCons(s[0], s[1..], k);
      assert s == [s[0]] + s[1..];
      if e.key == k {
        assert head == [];
      } else {
        assert mine == [];
      }
    }
  }

  /** Stability: for every key, the sort keeps the input order of that key's entries. */
  lemma {:induction false} SortStable(s: seq<Entry>, k: int)
    ensures WithKey(SortByKey(s), k) == WithKey(s, k)
  {
    if |s| > 0 {
      SortStable(s[1..], k);
      InsertWithKey(s[0], SortByKey(s[1..]), k);
    }
  }

  /** Stability, for all keys at once. */
  lemma SortStableAllKeys(s: seq<Entry>)
    ensures forall k :: WithKey(SortByKey(s), k) == WithKey(s, k)
  {
    forall k
      ensures WithKey(SortByKey(s), k) == WithKey(s, k)
    {
      SortStable(s, k);
    }
  }

  /** Two sorted sequences that agree on every key's entries start alike. */
  lemma SameHead(r1: seq<Entry>, r2: seq<Entry>)
    requires |r1| > 0 && |r2| > 0
    requires Sorted(r1) && Sorted(r2)
    requires forall k :: WithKey(r1, k) == WithKey(r2, k)
    ensures r1[0] == r2[0]
  {
    var k1, k2 := r1[0].key, r2[0].key;
    WithKeyMembers(r1, k1, r1[0]);
    WithKeyMembers(r2, k1, r1[0]);
    WithKeyMembers(r2, k2, r2[0]);
    WithKeyMembers(r1, k2, r2[0]);
    var i :| 0 <= i < |r2| && r2[i] == r1[0];
    var j :| 0 <= j < |r1| && r1[j] == r2[0];
    assert k2 <= k1 && k1 <= k2;
    WithKeyCons(r1[0], r1[1..], k1);
    WithKeyCons(r2[0], r2[1..], k1);
    assert r1 == [r1[0]] + r1[1..];
    assert r2 == [r2[0]] + r2[1..];
    assert WithKey(r1, k1)[0] == WithKey(r2, k1)[0];
  }

  /** Dropping a common head keeps the per-key agreement. */
  lemma SameTails(r1: seq<Entry>, r2: seq<Entry>)
    requires |r1| > 0 && |r2| > 0 && r1[0] == r2[0]
    requires forall k :: WithKey(r1, k) == WithKey(r2, k)
    ensures forall k :: WithKey(r1[1..], k) == WithKey(r2[1..], k)
  {
    forall k
      ensures WithKey(r1[1..], k) == WithKey(r2[1..], k)
    {
      var head := if r1[0].key == k then [r1[0]] else [];
      WithKeyCons(r1[0], r1[1..], k);
      WithKeyCons(r2[0], r2[1..], k);
      assert r1 == [r1[0]] + r1[1..];
      assert r2 == [r2[0]] + r2[1..];
      assert WithKey(r1[1..], k) == WithKey(r1, k)[|head|..];
      assert WithKey(r2[1..], k) == WithKey(r2, k)[|head|..];
    }
  }

  /**
   * A sorted sequence is determined by its per-key subsequences: two sorted
   * sequences that agree on every key's entries are equal.
   */
  lemma {:induction false} SortedUnique(r1: seq<Entry>, r2: seq<Entry>)
    requires Sorted(r1) && Sorted(r2)
    requires forall k :: WithKey(r1, k) == WithKey(r2, k)
    ensures r1 == r2
    decreases |r1|
  {
    if |r1| == 0 || |r2| == 0 {
      if |r1| + |r2| > 0 {
        var x := if |r1| > 0 then r1[0] else r2[0];
        WithKeyMembers(r1, x.key, x);
        WithKeyMembers(r2, x.key, x);
        assert false;
      }
    } else {
      SameHead(r1, r2);
      SameTails(r1, r2);
      assert Sorted(r1[1..]) && Sorted(r2[1..]);
      SortedUnique(r1[1..], r2[1..]);
      assert r1 == [r1[0]] + r1[1..];
      assert r2 == [r2[0]] + r2[1..];
    }
  }

  /**
   * Any stable sort agrees with `SortByKey`: the sorted sequence that keeps
   * every key's entries in input order is unique.
   */
  lemma SortIsTheStableSort(s: seq<Entry>, r: seq<Entry>)
    requires Sorted(r)
    requires forall k :: WithKey(r, k) == WithKey(s, k)
    ensures r == SortByKey(s)
  {
    SortStableAllKeys(s);
    SortSortsAndPermutes(s);
    SortedUnique(r, SortByKey(s));
  }

  /** Already-sorted input is left as it is. */
  lemma SortKeepsSorted(s: seq<Entry>)
    requires Sorted(s)
    ensures SortByKey(s) == s
  {
    SortIsTheStableSort(s, s);
  }
}
