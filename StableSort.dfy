/** Python's `list.sort(key=f, reverse=True)`: a stable sort, largest key first,
    elements with equal keys kept in their original order. Timsort itself is not
    modelled: `SortedStableUnique` shows that a sorted order which keeps equal keys
    in order is unique, so insertion sort gives the same list. */
module StableSort {
  import opened PyText

  predicate SortedDesc<T>(key: T -> real, s: seq<T>) {
    forall i, j :: 0 <= i < j < |s| ==> key(s[i]) >= key(s[j])
  }

  /** The elements of `s` whose key is `k`, in their order in `s`. */
  function WithKey<T>(key: T -> real, s: seq<T>, k: real): seq<T> {
    if s == [] then [] else (if key(s[0]) == k then [s[0]] else []) + WithKey(key, s[1..], k)
  }

  /** Inserts `x` after every element whose key is at least `x`'s. */
  function Insert<T>(key: T -> real, x: T, s: seq<T>): seq<T> {
    if s == [] then [x]
    else if key(s[0]) >= key(x) then [s[0]] + Insert(key, x, s[1..])
    else [x] + s
  }

  /** `sorted(s, key=key, reverse=True)`, as insertion sort: each element, taken in
      input order, goes after every element already placed whose key is at least
      its own. */
  function SortDesc<T>(key: T -> real, s: seq<T>): seq<T> {
    if s == [] then [] else Insert(key, s[|s| - 1], SortDesc(key, s[..|s| - 1]))
  }

  lemma {:induction false} WithKeyAppend<T>(key: T -> real, a: seq<T>, b: seq<T>, k: real)
    ensures WithKey(key, a + b, k) == WithKey(key, a, k) + WithKey(key, b, k)
  {
    if a != [] {
      WithKeyAppend(key, a[1..], b, k);
      assert (a + b)[1..] == a[1..] + b;
    } else {
      assert a + b == b;
    }
  }

  /** Every key in `s` is at most `b`. */
  predicate AllAtMost<T>(key: T -> real, s: seq<T>, b: real) {
    forall i :: 0 <= i < |s| ==> key(s[i]) <= b
  }

  lemma SortedCons<T>(key: T -> real, h: T, t: seq<T>)
    ensures SortedDesc(key, [h] + t) <==> AllAtMost(key, t, key(h)) && SortedDesc(key, t)
  {
    var r := [h] + t;
    if AllAtMost(key, t, key(h)) && SortedDesc(key, t) {
      forall i, j | 0 <= i < j < |r| ensures key(r[i]) >= key(r[j]) {
        assert r[j] == t[j - 1];
        if i > 0 {
          assert r[i] == t[i - 1];
        }
      }
    }
    if SortedDesc(key, r) {
      forall i | 0 <= i < |t| ensures key(t[i]) <= key(h) {
        assert r[0] == h && r[i + 1] == t[i];
      }
      forall i, j | 0 <= i < j < |t| ensures key(t[i]) >= key(t[j]) {
        assert r[i + 1] == t[i] && r[j + 1] == t[j];
      }
    }
  }

  lemma SortedTail<T>(key: T -> real, s: seq<T>)
    requires SortedDesc(key, s) && s != []
    ensures SortedDesc(key, s[1..])
  {
    forall i, j | 0 <= i < j < |s| - 1 ensures key(s[1..][i]) >= key(s[1..][j]) {
      assert s[1..][i] == s[i + 1] && s[1..][j] == s[j + 1];
    }
  }

  lemma {:induction false} InsertPermutes<T>(key: T -> real, x: T, s: seq<T>)
    ensures multiset(Insert(key, x, s)) == multiset(s) + multiset{x}
  {
    if s != [] && key(s[0]) >= key(x) {
      InsertPermutes(key, x, s[1..]);
      assert s == [s[0]] + s[1..];
    }
  }

  lemma {:induction false} InsertAtMost<T>(key: T -> real, x: T, s: seq<T>, b: real)
    requires AllAtMost(key, s, b) && key(x) <= b
    ensures AllAtMost(key, Insert(key, x, s), b)
  {
    if s != [] && key(s[0]) >= key(x) {
      InsertAtMost(key, x, s[1..], b);
      var t := Insert(key, x, s[1..]);
      assert forall i :: 0 <= i < |t| ==> ([s[0]] + t)[i + 1] == t[i];
    }
  }

  lemma {:induction false} InsertSorted<T>(key: T -> real, x: T, s: seq<T>)
    requires SortedDesc(key, s)
    ensures SortedDesc(key, Insert(key, x, s))
  {
    if s == [] {
    } else if key(s[0]) >= key(x) {
      SortedCons(key, s[0], s[1..]);
      assert s == [s[0]] + s[1..];
      InsertSorted(key, x, s[1..]);
      InsertAtMost(key, x, s[1..], key(s[0]));
      SortedCons(key, s[0], Insert(key, x, s[1..]));
    } else {
      assert AllAtMost(key, s, key(x)) by {
        forall i | 0 <= i < |s| ensures key(s[i]) <= key(x) {
          assert i == 0 || key(s[0]) >= key(s[i]);
        }
      }
      SortedCons(key, x, s);
    }
  }

  lemma {:induction false} InsertWithKey<T>(key: T -> real, x: T, s: seq<T>, k: real)
    requires SortedDesc(key, s)
    ensures WithKey(key, Insert(key, x, s), k) == WithKey(key, s, k) + (if key(x) == k then [x] else [])
  {
    var r := Insert(key, x, s);
    var hx: seq<T> := if key(x) == k then [x] else [];
    if s == [] {
      assert r == [x] && r[1..] == [];
    } else if key(s[0]) >= key(x) {
      var t := Insert(key, x, s[1..]);
      var h0: seq<T> := if key(s[0]) == k then [s[0]] else [];
      SortedTail(key, s);
      InsertWithKey(key, x, s[1..], k);
      assert r == [s[0]] + t && r[1..] == t;
      assert WithKey(key, r, k) == h0 + WithKey(key, t, k);
      assert WithKey(key, s, k) == h0 + WithKey(key, s[1..], k);
      assert h0 + (WithKey(key, s[1..], k) + hx) == (h0 + WithKey(key, s[1..], k)) + hx;
    } else {
      assert r == [x] + s && r[1..] == s;
      if key(x) == k {
        NoneAbove(key, s, k);
      }
    }
  }

  /** In a descending sequence whose head is below `k`, nothing has key `k`. */
  lemma {:induction false} NoneAbove<T>(key: T -> real, s: seq<T>, k: real)
    requires SortedDesc(key, s) && s != [] && key(s[0]) < k
    ensures WithKey(key, s, k) == []
  {
    if |s| > 1 {
      assert key(s[1]) <= key(s[0]);
      SortedTail(key, s);
      NoneAbove(key, s[1..], k);
    }
  }

  /** The sort returns a descending permutation of its input in which the elements
      of every key keep their input order. */
  lemma {:induction false} SortDescCorrect<T>(key: T -> real, s: seq<T>)
    ensures SortedDesc(key, SortDesc(key, s))
    ensures multiset(SortDesc(key, s)) == multiset(s)
    ensures |SortDesc(key, s)| == |s|
    ensures forall k :: WithKey(key, SortDesc(key, s), k) == WithKey(key, s, k)
  {
    if s != [] {
      var init, x := s[..|s| - 1], s[|s| - 1];
      SortDescCorrect(key, init);
      InsertPermutes(key, x, SortDesc(key, init));
      InsertSorted(key, x, SortDesc(key, init));
      assert s == init + [x];
      forall k ensures WithKey(key, SortDesc(key, s), k) == WithKey(key, s, k) {
        InsertWithKey(key, x, SortDesc(key, init), k);
        WithKeyAppend(key, init, [x], k);
        assert WithKey(key, [x], k) == (if key(x) == k then [x] else []) by {
          assert [x][1..] == [];
        }
      }
      assert |SortDesc(key, s)| == |multiset(SortDesc(key, s))|;
    }
  }

  lemma WithKeyHead<T>(key: T -> real, s: seq<T>)
    requires s != []
    ensures WithKey(key, s, key(s[0])) != []
  {
  }

  /** A descending order that keeps every key's elements in order is unique: two
      such orders of the same elements are the same list. */
  lemma {:induction false} SortedStableUnique<T>(key: T -> real, a: seq<T>, b: seq<T>)
    requires SortedDesc(key, a) && SortedDesc(key, b)
    requires forall k :: WithKey(key, a, k) == WithKey(key, b, k)
    ensures a == b
    decreases |a|
  {
    if a == [] && b != [] {
      assert false;
    } else if a != [] && b == [] {
      WithKeyHead(key, a);
      assert false;
    } else if a != [] {
      var ka, kb := key(a[0]), key(b[0]);
      if ka < kb {
        NoneAbove(key, a, kb);
        assert false;
      } else if kb < ka {
        NoneAbove(key, b, ka);
        assert false;
      } else {
        assert a[0] == WithKey(key, a, ka)[0] == WithKey(key, b, ka)[0] == b[0];
        forall k ensures WithKey(key, a[1..], k) == WithKey(key, b[1..], k) {
          var h: seq<T> := if ka == k then [a[0]] else [];
          assert WithKey(key, a, k) == h + WithKey(key, a[1..], k);
          assert WithKey(key, b, k) == h + WithKey(key, b[1..], k);
          assert WithKey(key, a[1..], k) == (h + WithKey(key, a[1..], k))[|h|..];
          assert WithKey(key, b[1..], k) == (h + WithKey(key, b[1..], k))[|h|..];
        }
        SortedTail(key, a);
        SortedTail(key, b);
        SortedStableUnique(key, a[1..], b[1..]);
        assert a == [a[0]] + a[1..] && b == [b[0]] + b[1..];
      }
    }
  }

  /** In a descending list, nothing after the first `n` elements has a higher key
      than any of them. */
  lemma DroppedBelowKept<T>(key: T -> real, sorted: seq<T>, n: nat)
    requires SortedDesc(key, sorted) && n <= |sorted|
    ensures forall x, y :: x in multiset(sorted) - multiset(sorted[..n]) && y in sorted[..n] ==> key(x) <= key(y)
  {
    var r, rest := sorted[..n], sorted[n..];
    assert sorted == r + rest;
    assert multiset(sorted) - multiset(r) == multiset(rest);
    forall x, y | x in multiset(sorted) - multiset(r) && y in r
      ensures key(x) <= key(y)
    {
      var j :| 0 <= j < |rest| && rest[j] == x;
      var i :| 0 <= i < |r| && r[i] == y;
      assert sorted[n + j] == x && sorted[i] == y;
    }
  }

  /** `sorted(s, key=key, reverse=True)[:limit]`: the first `limit` of a stable
      descending sort. The answer is a prefix of the sorted permutation, holds
      `limit` elements (or all of them when there are fewer), is itself sorted, and
      no element left out has a higher key than any element kept. */
  lemma TopPrefix<T>(key: T -> real, s: seq<T>, limit: int)
    ensures var sorted := SortDesc(key, s); var r := Prefix(sorted, limit);
      && SortedDesc(key, r)
      && r == sorted[..|r|]
      && multiset(r) <= multiset(s)
      && (limit >= 0 ==> |r| == Min(limit, |s|))
      && forall x, y :: x in multiset(s) - multiset(r) && y in r ==> key(x) <= key(y)
  {
    var sorted := SortDesc(key, s);
    SortDescCorrect(key, s);
    var r := Prefix(sorted, limit);
    assert sorted == r + sorted[|r|..];
    assert multiset(sorted) == multiset(r) + multiset(sorted[|r|..]);
    DroppedBelowKept(key, sorted, |r|);
  }
}
