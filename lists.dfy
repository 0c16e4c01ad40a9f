/**
 * The array operations the screens apply to query results: `filter`, `map`,
 * a newest-first ordering, `limit`, and ordering by a text column.
 */
module Lists {
  import opened Text

  /** `s.filter(p)`: the elements that satisfy `p`, in their original order. */
  function Filter<T(==,!new)>(s: seq<T>, p: T -> bool): (r: seq<T>)
    ensures |r| <= |s|
    ensures forall x :: x in r <==> x in s && p(x)
  {
    if s == [] then [] else (if p(s[0]) then [s[0]] else []) + Filter(s[1..], p)
  }

  /** No element satisfies `p`: the filter is empty. */
  lemma {:induction false} FilterNone<T(!new)>(s: seq<T>, p: T -> bool)
    requires forall i :: 0 <= i < |s| ==> !p(s[i])
    ensures Filter(s, p) == []
  {
    if s != [] {
      assert forall i :: 0 <= i < |s[1..]| ==> s[1..][i] == s[i + 1];
      FilterNone(s[1..], p);
    }
  }

  /** When exactly one position satisfies `p`, the filter is that one element. */
  lemma {:induction false} FilterSingle<T(!new)>(s: seq<T>, p: T -> bool, k: nat)
    requires k < |s| && p(s[k])
    requires forall i :: 0 <= i < |s| && p(s[i]) ==> i == k
    ensures Filter(s, p) == [s[k]]
  {
    if k == 0 {
      forall i | 0 <= i < |s[1..]| ensures !p(s[1..][i]) {
        assert s[1..][i] == s[i + 1];
      }
      FilterNone(s[1..], p);
    } else {
      forall i | 0 <= i < |s[1..]| && p(s[1..][i]) ensures i == k - 1 {
        assert s[1..][i] == s[i + 1];
      }
      FilterSingle(s[1..], p, k - 1);
    }
  }

  /** Two positions satisfying `p` leave at least two elements in the filter. */
  lemma {:induction false} FilterTwo<T(!new)>(s: seq<T>, p: T -> bool, i: nat, j: nat)
    requires i < j < |s| && p(s[i]) && p(s[j])
    ensures |Filter(s, p)| >= 2
  {
    if i == 0 {
      assert s[j] == s[1..][j - 1];
      assert s[j] in Filter(s[1..], p);
    } else {
      assert s[i] == s[1..][i - 1] && s[j] == s[1..][j - 1];
      FilterTwo(s[1..], p, i - 1, j - 1);
    }
  }

  /** The elements that do not satisfy `p`. */
  function Reject<T(==,!new)>(s: seq<T>, p: T -> bool): (r: seq<T>)
    ensures forall x :: x in r <==> x in s && !p(x)
  {
    Filter(s, x => !p(x))
  }

  lemma {:induction false} FilterAppend<T(!new)>(s: seq<T>, t: seq<T>, p: T -> bool)
    ensures Filter(s + t, p) == Filter(s, p) + Filter(t, p)
  {
    if s == [] {
      assert s + t == t;
    } else {
      assert (s + t)[1..] == s[1..] + t;
      FilterAppend(s[1..], t, p);
    }
  }

  lemma {:induction false} RejectAppend<T(!new)>(s: seq<T>, t: seq<T>, p: T -> bool)
    ensures Reject(s + t, p) == Reject(s, p) + Reject(t, p)
  {
    if s == [] {
      assert s + t == t;
    } else {
      assert (s + t)[1..] == s[1..] + t;
      RejectAppend(s[1..], t, p);
    }
  }

  /** A filter that every element passes keeps the whole sequence. */
  lemma {:induction false} FilterAll<T(!new)>(s: seq<T>, p: T -> bool)
    requires forall x :: x in s ==> p(x)
    ensures Filter(s, p) == s
  {
    if s != [] {
      FilterAll(s[1..], p);
    }
  }

  /** Every element is counted by exactly one of `Filter` and `Reject`. */
  lemma {:induction false} FilterRejectLength<T(!new)>(s: seq<T>, p: T -> bool)
    ensures |Filter(s, p)| + |Reject(s, p)| == |s|
  {
    if s != [] {
      FilterRejectLength(s[1..], p);
    }
  }

  /** `s.map(f)`. */
  function Map<T, U>(s: seq<T>, f: T -> U): (r: seq<U>)
    ensures |r| == |s|
    ensures forall i :: 0 <= i < |s| ==> r[i] == f(s[i])
  {
    if s == [] then [] else [f(s[0])] + Map(s[1..], f)
  }

  /** Filtering commutes with a map that does not change what the filter looks at. */
  lemma {:induction false} FilterMap<T(!new)>(s: seq<T>, f: T -> T, p: T -> bool)
    requires forall x :: p(f(x)) == p(x)
    ensures Filter(Map(s, f), p) == Map(Filter(s, p), f)
  {
    if s != [] {
      assert Map(s, f)[1..] == Map(s[1..], f);
      FilterMap(s[1..], f, p);
      if p(s[0]) {
        assert Map(Filter(s, p), f) == [f(s[0])] + Map(Filter(s[1..], p), f);
      }
    }
  }

  /** `s` in reverse order. */
  function Reverse<T(==,!new)>(s: seq<T>): (r: seq<T>)
    ensures |r| == |s|
    ensures forall i :: 0 <= i < |s| ==> r[i] == s[|s| - 1 - i]
    ensures forall x :: x in r <==> x in s
  {
    var r := seq(|s|, i requires 0 <= i < |s| => s[|s| - 1 - i]);
    assert forall i :: 0 <= i < |s| ==> s[i] == r[|s| - 1 - i];
    r
  }

  /** `.limit(n)`: the first `n` elements, or all of them when there are fewer. */
  function Take<T>(s: seq<T>, n: nat): (r: seq<T>)
    ensures |r| == if |s| < n then |s| else n
    ensures forall i :: 0 <= i < |r| ==> r[i] == s[i]
  {
    if |s| < n then s else s[..n]
  }

  /** `key` strictly increases along `s`. */
  predicate Ascending<T>(s: seq<T>, key: T -> int) {
    forall i, j :: 0 <= i < j < |s| ==> key(s[i]) < key(s[j])
  }

  /** `key` strictly decreases along `s`. */
  predicate Descending<T>(s: seq<T>, key: T -> int) {
    forall i, j :: 0 <= i < j < |s| ==> key(s[i]) > key(s[j])
  }

  /** All keys of `s` are below `bound`. */
  predicate Below<T(==)>(s: seq<T>, key: T -> int, bound: int) {
    forall x :: x in s ==> key(x) < bound
  }

  /** Keys that strictly increase are pairwise distinct. */
  lemma AscendingUnique<T>(s: seq<T>, key: T -> int, i: int, j: int)
    requires Ascending(s, key) && 0 <= i < |s| && 0 <= j < |s|
    requires key(s[i]) == key(s[j])
    ensures i == j
  {
  }

  /** Appending an element whose key exceeds every key keeps the order. */
  lemma AscendingAppend<T>(s: seq<T>, x: T, key: T -> int)
    requires Ascending(s, key) && Below(s, key, key(x))
    ensures Ascending(s + [x], key)
  {
    forall i, j | 0 <= i < j < |s + [x]|
      ensures key((s + [x])[i]) < key((s + [x])[j])
    {
      assert (s + [x])[i] == s[i];
      if j == |s| {
        assert s[i] in s;
      }
    }
  }

  /** A filter keeps the remaining elements in their order. */
  lemma {:induction false} FilterAscending<T(!new)>(s: seq<T>, p: T -> bool, key: T -> int)
    requires Ascending(s, key)
    ensures Ascending(Filter(s, p), key)
  {
    if s != [] {
      FilterAscending(s[1..], p, key);
      var rest := Filter(s[1..], p);
      if p(s[0]) {
        forall j | 0 <= j < |rest|
          ensures key(s[0]) < key(rest[j])
        {
          assert rest[j] in s[1..];
        }
      }
    }
  }

  /** A map that keeps every key keeps the order. */
  lemma MapAscending<T>(s: seq<T>, f: T -> T, key: T -> int)
    requires Ascending(s, key)
    requires forall x :: key(f(x)) == key(x)
    ensures Ascending(Map(s, f), key)
  {
  }

  /** Reversing turns an ascending sequence into a descending one. */
  lemma ReverseAscending<T(!new)>(s: seq<T>, key: T -> int)
    requires Ascending(s, key)
    ensures Descending(Reverse(s), key)
  {
  }

  /** `key` never decreases along `s` in text order. */
  predicate SortedBy<T>(s: seq<T>, key: T -> string) {
    forall i, j :: 0 <= i < j < |s| ==> TextLe(key(s[i]), key(s[j]))
  }

  /** Inserts `x` into sorted `s` before the first element whose key is not below it. */
  function Insert<T>(x: T, s: seq<T>, key: T -> string): (r: seq<T>)
    requires SortedBy(s, key)
    ensures SortedBy(r, key)
    ensures multiset(r) == multiset(s) + multiset{x}
  {
    if s == [] then [x]
    else if TextLe(key(x), key(s[0])) then
      var r := [x] + s;
      forall i, j | 0 <= i < j < |r|
        ensures TextLe(key(r[i]), key(r[j]))
      {
        if i == 0 && j > 1 {
          TextLeTransitive(key(x), key(s[0]), key(s[j - 1]));
        }
      }
      r
    else
      TextLeTotal(key(x), key(s[0]));
      var rest := Insert(x, s[1..], key);
      var r := [s[0]] + rest;
      assert multiset(s) == multiset{s[0]} + multiset(s[1..]) by {
        assert s == [s[0]] + s[1..];
      }
      forall j | 0 <= j < |rest|
        ensures TextLe(key(s[0]), key(rest[j]))
      {
        assert rest[j] in multiset(rest);
        assert rest[j] == x || rest[j] in multiset(s[1..]);
        if rest[j] != x {
          var k :| 0 <= k < |s[1..]| && s[1..][k] == rest[j];
          assert s[k + 1] == rest[j];
        }
      }
      r
  }

  /** `.order(column, { ascending: true })` on a text column: a permutation of `s`
      that is sorted by `key`. */
  function SortBy<T>(s: seq<T>, key: T -> string): (r: seq<T>)
    ensures SortedBy(r, key)
    ensures multiset(r) == multiset(s)
  {
    if s == [] then []
    else
      assert s == [s[0]] + s[1..];
      Insert(s[0], SortBy(s[1..], key), key)
  }
}
